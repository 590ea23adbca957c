/** Requests from the server to the client and the callbacks waiting for their answers
    (`OutgoingMessageSender` in `crates/app-server/src/outgoing_message.rs`). Every locked
    section and every atomic operation is one step; steps of different calls interleave freely. */
module Callbacks {
  import opened Text

  datatype RequestId = Integer(value: int) | Name(text: string)

  const TWO_63: int := 0x8000_0000_0000_0000
  const TWO_64: int := 0x1_0000_0000_0000_0000

  /** The 64-bit counter after `n` increments from zero: it wraps around. */
  function Counter(n: nat): int {
    var low := n % TWO_64;
    if low < TWO_63 then low else low - TWO_64
  }

  /** The counter around the places where it turns. */
  lemma CounterByExample()
    ensures Counter(0) == 0 && Counter(9223372036854775807) == 9223372036854775807
    ensures Counter(9223372036854775808) == -9223372036854775808
    ensures Counter(18446744073709551615) == -1 && Counter(18446744073709551616) == 0
  {
  }

  /** What `remove_entry` leaves. */
  function Without(table: map<RequestId, Call>, id: RequestId): map<RequestId, Call> {
    table - {id}
  }

  lemma CounterSteps(n: nat)
    ensures Counter(n + 1) == if Counter(n) == TWO_63 - 1 then -TWO_63 else Counter(n) + 1
  {
    if n % TWO_64 == TWO_64 - 1 {
      assert (n + 1) % TWO_64 == 0;
    } else {
      assert (n + 1) % TWO_64 == n % TWO_64 + 1;
    }
  }

  lemma CounterInjective(a: nat, b: nat)
    requires a < TWO_64 && b < TWO_64 && Counter(a) == Counter(b)
    ensures a == b
  {
  }

  // ---------------------------------------------------------------- all interleavings

  /** One call of `send_request_with_id`. */
  type Call = nat

  datatype Event =
    | Begin(call: Call)
    | Insert(call: Call)
    | Send(call: Call)
    | SendFails(call: Call)
    | Retract(call: Call)
    | Response(id: RequestId, result: string)
    | ErrorReply(id: RequestId)
    | Cancel(id: RequestId)

  /** How far a call has come; `number` counts the identifiers issued before its own. */
  datatype Phase =
    | HasId(number: nat)
    | Inserted(number: nat)
    | OnWire(number: nat)
    | Failed(number: nat)
    | Retracted(number: nat)

  datatype Delivery = Delivery(call: Call, result: string)

  datatype State = State(
    issued: nat,
    calls: map<Call, Phase>,
    table: map<RequestId, Call>,
    delivered: seq<Delivery>)

  const START := State(0, map[], map[], [])

  function IdOf(phase: Phase): RequestId {
    Integer(Counter(phase.number))
  }

  /** The order of steps inside one call; answers may come at any time with any identifier. */
  predicate Enabled(s: State, e: Event) {
    match e
    case Begin(c) => c !in s.calls
    case Insert(c) => c in s.calls && s.calls[c].HasId?
    case Send(c) => c in s.calls && s.calls[c].Inserted?
    case SendFails(c) => c in s.calls && s.calls[c].Inserted?
    case Retract(c) => c in s.calls && s.calls[c].Failed?
    case Response(_, _) => true
    case ErrorReply(_) => true
    case Cancel(_) => true
  }

  function Step(s: State, e: Event): State
    requires Enabled(s, e)
  {
    match e
    case Begin(c) => s.(issued := s.issued + 1, calls := s.calls[c := HasId(s.issued)])
    case Insert(c) =>
      var n := s.calls[c].number;
      s.(calls := s.calls[c := Inserted(n)], table := s.table[Integer(Counter(n)) := c])
    case Send(c) => s.(calls := s.calls[c := OnWire(s.calls[c].number)])
    case SendFails(c) => s.(calls := s.calls[c := Failed(s.calls[c].number)])
    case Retract(c) =>
      var n := s.calls[c].number;
      s.(calls := s.calls[c := Retracted(n)], table := Without(s.table, Integer(Counter(n))))
    case Response(id, result) =>
      if id in s.table then
        s.(table := Without(s.table, id), delivered := s.delivered + [Delivery(s.table[id], result)])
      else s
    case ErrorReply(id) => s.(table := Without(s.table, id))
    case Cancel(id) => s.(table := Without(s.table, id))
  }

  ghost predicate Valid(run: seq<Event>)
    decreases |run|, 0
  {
    run != [] ==> Valid(run[..|run| - 1]) && Enabled(After(run[..|run| - 1]), run[|run| - 1])
  }

  ghost function After(run: seq<Event>): State
    requires Valid(run)
    decreases |run|, 1
  {
    if run == [] then START else Step(After(run[..|run| - 1]), run[|run| - 1])
  }

  // ---------------------------------------------------------------- the sender

  /** The sender as the source has it. Every method is one locked section or atomic operation;
      `s` is the state of the whole system before it. */
  class OutgoingMessageSender {
    var nextRequestId: int
    var requestIdToCallback: map<RequestId, Call>
    ghost var delivered: seq<Delivery>

    ghost predicate Represents(s: State)
      reads this
    {
      nextRequestId == Counter(s.issued) && requestIdToCallback == s.table && delivered == s.delivered
    }

    constructor ()
      ensures Represents(START)
    {
      nextRequestId, requestIdToCallback, delivered := 0, map[], [];
    }

    /** `fetch_add(1)`. */
    method AllocateId(ghost s: State, ghost call: Call) returns (id: RequestId)
      requires Represents(s) && Enabled(s, Begin(call))
      modifies this
      ensures Represents(Step(s, Begin(call)))
      ensures id == IdOf(Step(s, Begin(call)).calls[call])
    {
      id := Integer(nextRequestId);
      nextRequestId := if nextRequestId == TWO_63 - 1 then -TWO_63 else nextRequestId + 1;
      CounterSteps(s.issued);
    }

    /** The locked section before the request is sent. */
    method Register(ghost s: State, call: Call, id: RequestId)
      requires Represents(s) && Enabled(s, Insert(call)) && id == IdOf(s.calls[call])
      modifies this
      ensures Represents(Step(s, Insert(call)))
    {
      requestIdToCallback := requestIdToCallback[id := call];
    }

    /** The locked section after a send that failed. */
    method RetractRequest(ghost s: State, ghost call: Call, id: RequestId)
      requires Represents(s) && Enabled(s, Retract(call)) && id == IdOf(s.calls[call])
      modifies this
      ensures Represents(Step(s, Retract(call)))
    {
      var _ := RemoveEntry(id);
    }

    method NotifyClientResponse(ghost s: State, id: RequestId, result: string)
      requires Represents(s)
      modifies this
      ensures Represents(Step(s, Response(id, result)))
    {
      var entry := RemoveEntry(id);
      if entry.Some? {
        delivered := delivered + [Delivery(entry.value, result)];
      }
    }

    method NotifyClientError(ghost s: State, id: RequestId)
      requires Represents(s)
      modifies this
      ensures Represents(Step(s, ErrorReply(id)))
    {
      var _ := RemoveEntry(id);
    }

    method CancelRequest(ghost s: State, id: RequestId) returns (found: bool)
      requires Represents(s)
      modifies this
      ensures Represents(Step(s, Cancel(id)))
      ensures found <==> id in s.table
    {
      var entry := RemoveEntry(id);
      return entry.Some?;
    }

    method RemoveEntry(id: RequestId) returns (entry: Option<Call>)
      modifies this`requestIdToCallback
      ensures entry == if id in old(requestIdToCallback) then Some(old(requestIdToCallback)[id]) else None
      ensures requestIdToCallback == Without(old(requestIdToCallback), id)
      ensures entry.None? ==> requestIdToCallback == old(requestIdToCallback)
    {
      entry := if id in requestIdToCallback then Some(requestIdToCallback[id]) else None;
      requestIdToCallback := requestIdToCallback - {id};
    }
  }

  // ---------------------------------------------------------------- the fate of one callback

  datatype Fate = NotInserted | Pending | Got(result: string) | Dropped

  /** What happens to the callback of call `c`, whose identifier is `id`, reading only the
      events about this call and this identifier: the first answer after insertion decides. */
  function NextFate(fate: Fate, c: Call, id: RequestId, e: Event): Fate {
    match fate
    case NotInserted => if e == Insert(c) then Pending else fate
    case Pending =>
      if e.Response? && e.id == id then Got(e.result)
      else if (e.ErrorReply? || e.Cancel?) && e.id == id then Dropped
      else if e == Retract(c) then Dropped
      else fate
    case _ => fate
  }

  ghost function FateOf(run: seq<Event>, c: Call, id: RequestId): Fate {
    if run == [] then NotInserted
    else NextFate(FateOf(run[..|run| - 1], c, id), c, id, run[|run| - 1])
  }

  function DeliveriesTo(log: seq<Delivery>, c: Call): seq<string> {
    if log == [] then []
    else
      var last := log[|log| - 1];
      DeliveriesTo(log[..|log| - 1], c) + if last.call == c then [last.result] else []
  }

  ghost predicate NumbersOk(s: State) {
    && (forall c :: c in s.calls ==> s.calls[c].number < s.issued)
    && (forall c, d :: c in s.calls && d in s.calls && c != d ==> s.calls[c].number != s.calls[d].number)
  }

  ghost predicate EntriesOk(s: State) {
    forall id :: id in s.table ==>
      && s.table[id] in s.calls
      && IdOf(s.calls[s.table[id]]) == id
      && !s.calls[s.table[id]].HasId? && !s.calls[s.table[id]].Retracted?
  }

  /** Identifiers in use are distinct and the table only holds calls under their own. */
  ghost predicate TableOk(s: State) {
    NumbersOk(s) && EntriesOk(s)
  }

  /** The shared table and log show, for one call, exactly its own fate. */
  ghost predicate Shows(s: State, c: Call, fate: Fate)
    requires c in s.calls
  {
    var id, log := IdOf(s.calls[c]), DeliveriesTo(s.delivered, c);
    && (fate.NotInserted? <==> s.calls[c].HasId?)
    && (fate.Pending? <==> id in s.table && s.table[id] == c)
    && log == (match fate case Got(r) => [r] case _ => [])
    && (s.calls[c].Retracted? ==> !fate.Pending?)
  }

  lemma IdsDiffer(s: State, c: Call, d: Call)
    requires TableOk(s) && s.issued <= TWO_64 && c in s.calls && d in s.calls && c != d
    ensures IdOf(s.calls[c]) != IdOf(s.calls[d])
  {
    if IdOf(s.calls[c]) == IdOf(s.calls[d]) {
      CounterInjective(s.calls[c].number, s.calls[d].number);
    }
  }

  lemma StepNumbersOk(s: State, e: Event)
    requires NumbersOk(s) && Enabled(s, e)
    ensures NumbersOk(Step(s, e))
  {
    hide Counter, Without;
  }

  lemma StepEntriesOk(s: State, e: Event)
    requires EntriesOk(s) && Enabled(s, e)
    ensures EntriesOk(Step(s, e))
  {
    hide Counter;
    if e.Retract? {
      assert forall id :: id in Step(s, e).table ==> id != IdOf(s.calls[e.call]);
    }
  }

  lemma StepTableOk(s: State, e: Event)
    requires TableOk(s) && Enabled(s, e)
    ensures TableOk(Step(s, e))
  {
    hide NumbersOk, EntriesOk, Step, Enabled;
    StepNumbersOk(s, e);
    StepEntriesOk(s, e);
  }

  lemma LogAppend(log: seq<Delivery>, d: Delivery, c: Call)
    ensures DeliveriesTo(log + [d], c) == DeliveriesTo(log, c) + if d.call == c then [d.result] else []
  {
    assert (log + [d])[..|log|] == log;
  }

  /** Steps of the call itself. */
  lemma OwnStepShows(s: State, e: Event, c: Call, fate: Fate)
    requires TableOk(s) && Enabled(s, e) && s.issued <= TWO_64
    requires c in s.calls && Shows(s, c, fate)
    requires e in {Insert(c), Send(c), SendFails(c), Retract(c)}
    ensures Shows(Step(s, e), c, NextFate(fate, c, IdOf(s.calls[c]), e))
  {
    hide Counter, TableOk;
  }

  /** Steps of another call, which has another identifier. */
  lemma OtherStepShows(s: State, e: Event, c: Call, fate: Fate)
    requires TableOk(s) && Enabled(s, e) && s.issued <= TWO_64
    requires c in s.calls && Shows(s, c, fate)
    requires (e.Begin? || e.Insert? || e.Send? || e.SendFails? || e.Retract?) && e.call != c
    ensures Shows(Step(s, e), c, NextFate(fate, c, IdOf(s.calls[c]), e))
  {
    hide Counter, TableOk, DeliveriesTo;
    if e.Insert? || e.Retract? {
      IdsDiffer(s, c, e.call);
    }
  }

  /** Answers, whichever identifier they carry. */
  lemma AnswerShows(s: State, e: Event, c: Call, fate: Fate)
    requires TableOk(s) && Enabled(s, e)
    requires c in s.calls && Shows(s, c, fate)
    requires e.Response? || e.ErrorReply? || e.Cancel?
    ensures Shows(Step(s, e), c, NextFate(fate, c, IdOf(s.calls[c]), e))
  {
    hide Counter, NumbersOk, EntriesOk, Shows, NextFate;
    if e.Response? && e.id in s.table {
      ResponseShows(s, e, c, fate);
    } else {
      RemovalShows(s, e, c, fate);
    }
  }

  lemma ResponseShows(s: State, e: Event, c: Call, fate: Fate)
    requires EntriesOk(s) && c in s.calls && Shows(s, c, fate)
    requires e.Response? && e.id in s.table
    ensures Shows(Step(s, e), c, NextFate(fate, c, IdOf(s.calls[c]), e))
  {
    hide Counter, DeliveriesTo;
    LogAppend(s.delivered, Delivery(s.table[e.id], e.result), c);
    assert IdOf(s.calls[s.table[e.id]]) == e.id;
  }

  lemma RemovalShows(s: State, e: Event, c: Call, fate: Fate)
    requires c in s.calls && Shows(s, c, fate)
    requires e.ErrorReply? || e.Cancel? || (e.Response? && e.id !in s.table)
    ensures Shows(Step(s, e), c, NextFate(fate, c, IdOf(s.calls[c]), e))
  {
    hide Counter, DeliveriesTo;
  }

  lemma {:induction false} StepIssued(s: State, e: Event)
    requires Enabled(s, e)
    ensures s.issued <= Step(s, e).issued <= s.issued + 1
    ensures forall c :: c in s.calls ==> c in Step(s, e).calls && Step(s, e).calls[c].number == s.calls[c].number
    ensures forall c :: c in Step(s, e).calls && c !in s.calls ==> e == Begin(c)
  {
    hide Counter;
  }

  lemma {:induction false} TableOkAlways(run: seq<Event>)
    requires Valid(run)
    ensures TableOk(After(run))
    decreases |run|
  {
    hide TableOk, Step, Enabled;
    if run == [] {
      StartOk();
    } else {
      var init, e := run[..|run| - 1], run[|run| - 1];
      StepIssued(After(init), e);
      TableOkAlways(init);
      StepTableOk(After(init), e);
    }
  }

  lemma StartOk()
    ensures TableOk(START)
  {
  }

  /** A call that has not begun: nothing is delivered to it and no event has inserted it. */
  lemma {:induction false} NotBegun(run: seq<Event>, c: Call, id: RequestId)
    requires Valid(run) && c !in After(run).calls
    ensures FateOf(run, c, id) == NotInserted
    ensures DeliveriesTo(After(run).delivered, c) == []
    decreases |run|
  {
    hide Counter, NumbersOk;
    if run != [] {
      var init, e := run[..|run| - 1], run[|run| - 1];
      var s := After(init);
      StepIssued(s, e);
      NotBegun(init, c, id);
      TableOkAlways(init);
      if e.Response? && e.id in s.table {
        LogAppend(s.delivered, Delivery(s.table[e.id], e.result), c);
      }
    }
  }

  /** In every run, for every call: the table holds its callback exactly while its fate is
      pending, and the log holds what its fate says, once. */
  lemma {:induction false} CallbacksAreIndependent(run: seq<Event>, c: Call)
    requires Valid(run) && After(run).issued <= TWO_64 && c in After(run).calls
    ensures Shows(After(run), c, FateOf(run, c, IdOf(After(run).calls[c])))
    decreases |run|
  {
    if run != [] {
      var init, e := run[..|run| - 1], run[|run| - 1];
      var s := After(init);
      StepIssued(s, e);
      TableOkAlways(init);
      if c in s.calls {
        CallbacksAreIndependent(init, c);
        var fate := FateOf(init, c, IdOf(s.calls[c]));
        assert FateOf(run, c, IdOf(s.calls[c])) == NextFate(fate, c, IdOf(s.calls[c]), e);
        OneStepShows(s, e, c, fate);
      } else {
        NotBegun(init, c, IdOf(After(run).calls[c]));
        BeginShows(s, c);
      }
    }
  }

  lemma OneStepShows(s: State, e: Event, c: Call, fate: Fate)
    requires TableOk(s) && Enabled(s, e) && s.issued <= TWO_64
    requires c in s.calls && Shows(s, c, fate)
    ensures c in Step(s, e).calls && IdOf(Step(s, e).calls[c]) == IdOf(s.calls[c])
    ensures Shows(Step(s, e), c, NextFate(fate, c, IdOf(s.calls[c]), e))
  {
    hide TableOk, Shows, NextFate, Counter;
    StepIssued(s, e);
    if e.Response? || e.ErrorReply? || e.Cancel? {
      AnswerShows(s, e, c, fate);
    } else if e.call == c {
      OwnStepShows(s, e, c, fate);
    } else {
      OtherStepShows(s, e, c, fate);
    }
  }

  lemma BeginShows(s: State, c: Call)
    requires TableOk(s) && c !in s.calls && s.issued < TWO_64
    requires DeliveriesTo(s.delivered, c) == []
    ensures Shows(Step(s, Begin(c)), c, NotInserted)
  {
    hide DeliveriesTo, Counter;
  }

  /** In every run two calls have one identifier exactly when the counter went round between
      them; up to 2^64 calls it does not. */
  lemma {:induction false} IdentifiersIssuedOnce(run: seq<Event>, c: Call, d: Call)
    requires Valid(run) && c in After(run).calls && d in After(run).calls && c != d
    ensures var s := After(run);
            && s.calls[c].number != s.calls[d].number
            && (IdOf(s.calls[c]) == IdOf(s.calls[d]) <==>
                  s.calls[c].number % TWO_64 == s.calls[d].number % TWO_64)
            && (s.issued <= TWO_64 ==> IdOf(s.calls[c]) != IdOf(s.calls[d]))
  {
    hide After, Valid, EntriesOk;
    TableOkAlways(run);
    if After(run).issued <= TWO_64 {
      IdsDiffer(After(run), c, d);
    }
  }

  /** Calls numbered from zero that begin one after the other. */
  function Begins(n: nat): seq<Event> {
    if n == 0 then [] else Begins(n - 1) + [Begin(n - 1)]
  }

  lemma {:induction false} AfterBegins(n: nat)
    ensures Valid(Begins(n))
    ensures var s := After(Begins(n));
            s.issued == n && forall c: nat :: c in s.calls <==> c < n
    ensures forall c: nat :: c < n ==> After(Begins(n)).calls[c] == HasId(c)
  {
    hide Counter, Without;
    if n > 0 {
      AfterBegins(n - 1);
      assert Begins(n)[..|Begins(n)| - 1] == Begins(n - 1);
      var init := After(Begins(n - 1));
      assert Enabled(init, Begin(n - 1));
      assert After(Begins(n)) == Step(init, Begin(n - 1));
    }
  }

  /** One call more, and its identifier has been issued before. */
  lemma IdentifierRepeats()
    ensures Valid(Begins(TWO_64 + 1))
    ensures var s := After(Begins(TWO_64 + 1));
            0 in s.calls && TWO_64 in s.calls && IdOf(s.calls[0]) == IdOf(s.calls[TWO_64])
  {
    hide Begins, After, Valid;
    AfterBegins(TWO_64 + 1);
  }

  /** A callback gets at most one result, and only from a response that carries its own
      identifier and comes after the callback was inserted. */
  lemma {:induction false} ResultComesFromOwnResponse(run: seq<Event>, c: Call, result: string) returns (k: nat)
    requires Valid(run) && After(run).issued <= TWO_64 && c in After(run).calls
    requires result in DeliveriesTo(After(run).delivered, c)
    ensures DeliveriesTo(After(run).delivered, c) == [result]
    ensures k < |run| && run[k] == Response(IdOf(After(run).calls[c]), result)
    ensures FateOf(run[..k], c, IdOf(After(run).calls[c])) == Pending
  {
    hide After, Valid, NextFate;
    CallbacksAreIndependent(run, c);
    k := GotFrom(run, c, IdOf(After(run).calls[c]), result);
  }

  lemma {:induction false} GotFrom(run: seq<Event>, c: Call, id: RequestId, result: string) returns (k: nat)
    requires FateOf(run, c, id) == Got(result)
    ensures k < |run| && run[k] == Response(id, result) && FateOf(run[..k], c, id) == Pending
    decreases |run|
  {
    var init := run[..|run| - 1];
    if FateOf(init, c, id) == Got(result) {
      k := GotFrom(init, c, id, result);
      assert run[..k] == init[..k];
    } else {
      k := |run| - 1;
    }
  }

  /** A request that reached the client has its callback waiting or already settled by an
      answer with its identifier. */
  lemma {:induction false} WireRequestIsAnswerable(run: seq<Event>, c: Call)
    requires Valid(run) && After(run).issued <= TWO_64 && c in After(run).calls
    requires After(run).calls[c].OnWire?
    ensures var id, s := IdOf(After(run).calls[c]), After(run);
            || (id in s.table && s.table[id] == c)
            || exists k :: 0 <= k < |run| && Settles(run[k], id) && FateOf(run[..k], c, id) == Pending
  {
    CallbacksAreIndependent(run, c);
    var id := IdOf(After(run).calls[c]);
    NeverRetracted(run, c);
    if !FateOf(run, c, id).Pending? {
      var k := SettledBy(run, c, id);
    }
  }

  predicate Settles(e: Event, id: RequestId) {
    (e.Response? || e.ErrorReply? || e.Cancel?) && e.id == id
  }

  lemma {:induction false} NeverRetracted(run: seq<Event>, c: Call)
    requires Valid(run) && c in After(run).calls && !After(run).calls[c].Retracted?
    ensures Retract(c) !in run
    decreases |run|
  {
    hide Counter;
    if run != [] {
      var init, e := run[..|run| - 1], run[|run| - 1];
      assert run == init + [e];
      if c in After(init).calls {
        NeverRetracted(init, c);
      } else {
        NoStepsBeforeBegin(init, c);
      }
    }
  }

  lemma {:induction false} NoStepsBeforeBegin(run: seq<Event>, c: Call)
    requires Valid(run) && c !in After(run).calls
    ensures Retract(c) !in run
    decreases |run|
  {
    hide Counter;
    if run != [] {
      var init, e := run[..|run| - 1], run[|run| - 1];
      assert run == init + [e];
      NoStepsBeforeBegin(init, c);
    }
  }

  lemma {:induction false} SettledBy(run: seq<Event>, c: Call, id: RequestId) returns (k: nat)
    requires FateOf(run, c, id).Got? || FateOf(run, c, id).Dropped?
    requires Retract(c) !in run
    ensures k < |run| && Settles(run[k], id) && FateOf(run[..k], c, id) == Pending
    decreases |run|
  {
    var init := run[..|run| - 1];
    if FateOf(init, c, id).Pending? {
      k := |run| - 1;
    } else {
      k := SettledBy(init, c, id);
      assert run[..k] == init[..k];
    }
  }
}
