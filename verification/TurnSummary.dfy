/** What is remembered about a session's running turn (`crates/app-server/src/bespoke_event_handling.rs`,
    `TurnSummaryStore`): the last error, reported when the turn completes, and the file changes
    already announced. Each locked section is one event; sessions interleave freely. */
module TurnSummary {
  import opened Text

  type Session = string
  type Item = string

  datatype Summary = Summary(fileChangeStarted: set<Item>, lastError: Option<string>)

  const NO_SUMMARY := Summary({}, None)

  type Store = map<Session, Summary>

  function SummaryOf(store: Store, session: Session): Summary {
    if session in store then store[session] else NO_SUMMARY
  }

  datatype Event =
    /** An approval request for a patch, or the start of applying it. */
    | PatchStarts(session: Session, item: Item)
    /** The end of applying a patch, or an approval that was not given. */
    | PatchEnds(session: Session, item: Item)
    | ErrorRaised(session: Session, message: string, rollbackFailed: bool)
    | TurnCompletes(session: Session)
    | TurnAborts(session: Session)

  datatype Notice =
    | ItemStarted(session: Session, item: Item)
    | ItemCompleted(session: Session, item: Item)
    | ErrorShown(session: Session, message: string)
    | TurnCompleted(session: Session, failure: Option<string>)
    | TurnInterrupted(session: Session)
    | Nothing

  function Step(store: Store, e: Event): Store {
    var summary := SummaryOf(store, e.session);
    match e
    case PatchStarts(s, item) => store[s := summary.(fileChangeStarted := summary.fileChangeStarted + {item})]
    case PatchEnds(s, item) =>
      if s in store then store[s := summary.(fileChangeStarted := summary.fileChangeStarted - {item})] else store
    case ErrorRaised(s, message, rollbackFailed) =>
      if rollbackFailed then store else store[s := summary.(lastError := Some(message))]
    case TurnCompletes(s) => store - {s}
    case TurnAborts(s) => store - {s}
  }

  /** What the client is told at an event, from the store before it. */
  function Tell(store: Store, e: Event): Notice {
    var summary := SummaryOf(store, e.session);
    match e
    case PatchStarts(s, item) => if item in summary.fileChangeStarted then Nothing else ItemStarted(s, item)
    case PatchEnds(s, item) => ItemCompleted(s, item)
    case ErrorRaised(s, message, rollbackFailed) => if rollbackFailed then Nothing else ErrorShown(s, message)
    case TurnCompletes(s) => TurnCompleted(s, summary.lastError)
    case TurnAborts(s) => TurnInterrupted(s)
  }

  /** The store as the source has it. */
  class TurnSummaryStore {
    var summaries: Store

    constructor ()
      ensures summaries == map[]
    {
      summaries := map[];
    }

    /** The locked section at the start of a file change. */
    method StartFileChange(session: Session, item: Item) returns (first: bool)
      modifies this
      ensures summaries == Step(old(summaries), PatchStarts(session, item))
      ensures first <==> Tell(old(summaries), PatchStarts(session, item)) == ItemStarted(session, item)
    {
      var summary := SummaryOf(summaries, session);
      first := item !in summary.fileChangeStarted;
      summaries := summaries[session := summary.(fileChangeStarted := summary.fileChangeStarted + {item})];
    }

    /** The locked section of `complete_file_change_item`. */
    method CompleteFileChange(session: Session, item: Item)
      modifies this
      ensures summaries == Step(old(summaries), PatchEnds(session, item))
    {
      if session in summaries {
        var summary := summaries[session];
        summaries := summaries[session := summary.(fileChangeStarted := summary.fileChangeStarted - {item})];
      }
    }

    /** `handle_error`. */
    method HandleError(session: Session, message: string)
      modifies this
      ensures summaries == Step(old(summaries), ErrorRaised(session, message, false))
    {
      var summary := SummaryOf(summaries, session);
      summaries := summaries[session := summary.(lastError := Some(message))];
    }

    /** `find_and_remove_turn_summary`, then the status of `handle_turn_complete`. */
    method CompleteTurn(session: Session) returns (failure: Option<string>)
      modifies this
      ensures summaries == Step(old(summaries), TurnCompletes(session))
      ensures Tell(old(summaries), TurnCompletes(session)) == TurnCompleted(session, failure)
    {
      var summary := SummaryOf(summaries, session);
      summaries := summaries - {session};
      failure := summary.lastError;
    }
  }

  // ---------------------------------------------------------------- whole traces

  function After(trace: seq<Event>): Store {
    if trace == [] then map[] else Step(After(trace[..|trace| - 1]), trace[|trace| - 1])
  }

  /** What the client is told at event `k` of a trace. */
  function Told(trace: seq<Event>, k: nat): Notice
    requires k < |trace|
  {
    Tell(After(trace[..k]), trace[k])
  }

  predicate EndsTurn(e: Event, s: Session) {
    e == TurnCompletes(s) || e == TurnAborts(s)
  }

  predicate SetsError(e: Event, s: Session) {
    e.ErrorRaised? && e.session == s && !e.rollbackFailed
  }

  /** Event `j` is the latest error of session `s` since its turn began, seen from the end of `trace`. */
  ghost predicate LatestError(trace: seq<Event>, s: Session, j: nat, message: string) {
    && j < |trace| && trace[j] == ErrorRaised(s, message, false)
    && forall i :: j < i < |trace| ==> !EndsTurn(trace[i], s) && !SetsError(trace[i], s)
  }

  predicate Forgets(e: Event, s: Session, item: Item) {
    e == PatchEnds(s, item) || EndsTurn(e, s)
  }

  /** Event `j` announced the item's start and nothing has closed it since. */
  ghost predicate OpenStart(trace: seq<Event>, s: Session, item: Item, j: nat) {
    && j < |trace| && trace[j] == PatchStarts(s, item)
    && forall i :: j < i < |trace| ==> !Forgets(trace[i], s, item)
  }

  ghost predicate HasLatestError(trace: seq<Event>, s: Session, message: string) {
    exists j: nat :: LatestError(trace, s, j, message)
  }

  ghost predicate HasOpenStart(trace: seq<Event>, s: Session, item: Item) {
    exists j: nat :: OpenStart(trace, s, item, j)
  }

  lemma LatestErrorExtends(trace: seq<Event>, e: Event, s: Session, message: string)
    ensures HasLatestError(trace + [e], s, message) <==>
      e == ErrorRaised(s, message, false)
      || (!EndsTurn(e, s) && !SetsError(e, s) && HasLatestError(trace, s, message))
  {
    var t, n := trace + [e], |trace|;
    if HasLatestError(t, s, message) {
      var j: nat :| LatestError(t, s, j, message);
      if j < n {
        assert !EndsTurn(t[n], s) && !SetsError(t[n], s);
        assert forall i :: j < i < n ==> t[i] == trace[i];
        assert LatestError(trace, s, j, message);
      }
    }
    if e == ErrorRaised(s, message, false) {
      assert LatestError(t, s, n, message);
    } else if !EndsTurn(e, s) && !SetsError(e, s) && HasLatestError(trace, s, message) {
      var j: nat :| LatestError(trace, s, j, message);
      assert LatestError(t, s, j, message);
    }
  }

  lemma OpenStartExtends(trace: seq<Event>, e: Event, s: Session, item: Item)
    ensures HasOpenStart(trace + [e], s, item) <==>
      e == PatchStarts(s, item) || (!Forgets(e, s, item) && HasOpenStart(trace, s, item))
  {
    var t, n := trace + [e], |trace|;
    if HasOpenStart(t, s, item) {
      var j: nat :| OpenStart(t, s, item, j);
      if j < n {
        assert !Forgets(t[n], s, item);
        assert forall i :: j < i < n ==> t[i] == trace[i];
        assert OpenStart(trace, s, item, j);
      }
    }
    if e == PatchStarts(s, item) {
      assert OpenStart(t, s, item, n);
    } else if !Forgets(e, s, item) && HasOpenStart(trace, s, item) {
      var j: nat :| OpenStart(trace, s, item, j);
      assert OpenStart(t, s, item, j);
    }
  }

  /** The remembered error of a session is the latest one of its running turn. */
  lemma {:induction false} StoreRemembersLatestError(trace: seq<Event>, s: Session, message: string)
    ensures SummaryOf(After(trace), s).lastError == Some(message) <==> HasLatestError(trace, s, message)
    decreases |trace|
  {
    hide HasLatestError;
    if trace == [] {
      NoErrorAtStart(s, message);
    } else {
      var init, e := trace[..|trace| - 1], trace[|trace| - 1];
      assert trace == init + [e];
      StoreRemembersLatestError(init, s, message);
      LatestErrorExtends(init, e, s, message);
    }
  }

  lemma NoErrorAtStart(s: Session, message: string)
    ensures !HasLatestError([], s, message)
  {
  }

  /** An item is remembered as started exactly while a start of it is open. */
  lemma {:induction false} StoreRemembersOpenStarts(trace: seq<Event>, s: Session, item: Item)
    ensures item in SummaryOf(After(trace), s).fileChangeStarted <==> HasOpenStart(trace, s, item)
    decreases |trace|
  {
    hide HasOpenStart;
    if trace == [] {
      NoStartAtStart(s, item);
    } else {
      var init, e := trace[..|trace| - 1], trace[|trace| - 1];
      assert trace == init + [e];
      StoreRemembersOpenStarts(init, s, item);
      OpenStartExtends(init, e, s, item);
    }
  }

  lemma NoStartAtStart(s: Session, item: Item)
    ensures !HasOpenStart([], s, item)
  {
  }

  /** In every trace, a completed turn is reported as failed with a message exactly when that
      message is the session's latest error since its previous turn ended, whatever other
      sessions did; otherwise it is reported as completed. */
  lemma {:induction false} CompletionReportsLatestError(trace: seq<Event>, k: nat, s: Session, message: string)
    requires k < |trace| && trace[k] == TurnCompletes(s)
    ensures Told(trace, k).TurnCompleted? && Told(trace, k).session == s
    ensures Told(trace, k).failure == Some(message) <==> HasLatestError(trace[..k], s, message)
  {
    hide HasLatestError;
    StoreRemembersLatestError(trace[..k], s, message);
  }

  /** A start is announced exactly when no earlier start of the item is still open. */
  lemma {:induction false} StartAnnouncedOnce(trace: seq<Event>, k: nat, s: Session, item: Item)
    requires k < |trace| && trace[k] == PatchStarts(s, item)
    ensures Told(trace, k) == ItemStarted(s, item) <==> !HasOpenStart(trace[..k], s, item)
  {
    hide HasOpenStart;
    StoreRemembersOpenStarts(trace[..k], s, item);
  }

  /** Between two announcements of one item its change was completed or the turn ended. */
  lemma {:induction false} AnnouncementsAreSeparated(trace: seq<Event>, j: nat, k: nat, s: Session, item: Item)
    requires j < k < |trace|
    requires Told(trace, j) == ItemStarted(s, item) && Told(trace, k) == ItemStarted(s, item)
    ensures exists i :: j < i < k && Forgets(trace[i], s, item)
  {
    hide After;
    StartAnnouncedOnce(trace, k, s, item);
    assert trace[..k][j] == trace[j] == PatchStarts(s, item);
    assert !OpenStart(trace[..k], s, item, j);
  }

  /** What the client is told besides: every error except a failed rollback, every completed file
      change, and an interruption for every aborted turn, whatever is remembered. */
  lemma {:induction false} ClientIsTold(trace: seq<Event>, k: nat, s: Session)
    requires k < |trace|
    ensures forall message :: trace[k] == ErrorRaised(s, message, false) <==> Told(trace, k) == ErrorShown(s, message)
    ensures forall message :: trace[k] == ErrorRaised(s, message, true) ==> Told(trace, k) == Nothing
    ensures forall item :: trace[k] == PatchEnds(s, item) <==> Told(trace, k) == ItemCompleted(s, item)
    ensures trace[k] == TurnAborts(s) <==> Told(trace, k) == TurnInterrupted(s)
  {
    hide After;
  }

  predicate Remembers(e: Event, s: Session) {
    (e.PatchStarts? && e.session == s) || SetsError(e, s)
  }

  ghost predicate HasSomething(trace: seq<Event>, s: Session) {
    exists j: nat :: j < |trace| && Remembers(trace[j], s) && forall i :: j < i < |trace| ==> !EndsTurn(trace[i], s)
  }

  lemma SomethingExtends(trace: seq<Event>, e: Event, s: Session)
    ensures HasSomething(trace + [e], s) <==> Remembers(e, s) || (!EndsTurn(e, s) && HasSomething(trace, s))
  {
    hide Remembers, EndsTurn;
    var t, n := trace + [e], |trace|;
    if HasSomething(t, s) {
      var j: nat :| j < |t| && Remembers(t[j], s) && forall i :: j < i < |t| ==> !EndsTurn(t[i], s);
      if j < n {
        assert t[n] == e && !EndsTurn(t[n], s);
        assert forall i :: j < i < n ==> t[i] == trace[i];
        assert Remembers(trace[j], s);
      }
    }
    if Remembers(e, s) {
      assert Remembers(t[n], s);
    } else if !EndsTurn(e, s) && HasSomething(trace, s) {
      var j: nat :| j < n && Remembers(trace[j], s) && forall i :: j < i < n ==> !EndsTurn(trace[i], s);
      assert Remembers(t[j], s);
      forall i | j < i < |t| ensures !EndsTurn(t[i], s) {
        if i < n { assert t[i] == trace[i]; }
      }
    }
  }

  /** The store has an entry for a session exactly while its running turn has had an error or a
      file change; nothing is kept beyond the turn. */
  lemma {:induction false} EntriesExactly(trace: seq<Event>, s: Session)
    ensures s in After(trace) <==> HasSomething(trace, s)
    decreases |trace|
  {
    hide HasSomething;
    if trace == [] {
      assert !HasSomething([], s) by { NothingAtStart(s); }
    } else {
      var init, e := trace[..|trace| - 1], trace[|trace| - 1];
      assert trace == init + [e];
      EntriesExactly(init, s);
      SomethingExtends(init, e, s);
    }
  }

  lemma NothingAtStart(s: Session)
    ensures !HasSomething([], s)
  {
  }

  // ---------------------------------------------------------------- sessions do not interfere

  function Of(trace: seq<Event>, s: Session): seq<Event> {
    if trace == [] then []
    else
      var e := trace[|trace| - 1];
      Of(trace[..|trace| - 1], s) + if e.session == s then [e] else []
  }

  /** A session's summary is what its own events alone would leave. */
  lemma {:induction false} SessionsAreIndependent(trace: seq<Event>, s: Session)
    ensures SummaryOf(After(trace), s) == SummaryOf(After(Of(trace, s)), s)
    decreases |trace|
  {
    if trace != [] {
      var init, e := trace[..|trace| - 1], trace[|trace| - 1];
      SessionsAreIndependent(init, s);
      if e.session == s {
        var own := Of(init, s);
        assert (own + [e])[..|own|] == own;
        OwnStep(After(init), After(own), e);
      } else {
        assert Of(trace, s) == Of(init, s);
      }
    }
  }

  lemma OwnStep(a: Store, b: Store, e: Event)
    requires SummaryOf(a, e.session) == SummaryOf(b, e.session)
    ensures SummaryOf(Step(a, e), e.session) == SummaryOf(Step(b, e), e.session)
  {
  }
}
