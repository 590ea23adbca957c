/** Sending only what is new over a WebSocket (`get_incremental_items`,
    `prepare_websocket_request` and the send path in `crates/core/src/client.rs`). The server
    keeps, per connection, the input of the last `response.create` and everything appended
    since. */
module DeltaCache {
  import opened Text

  datatype Request<Item> = Create(input: seq<Item>) | Append(input: seq<Item>)

  /** The items to append, if the previous request is a proper prefix of this one. */
  function IncrementalItems<Item(==)>(last: seq<Item>, input: seq<Item>): Option<seq<Item>> {
    if |last| > 0 && last <= input && |last| < |input| then Some(input[|last|..]) else None
  }

  function Prepare<Item(==)>(last: seq<Item>, input: seq<Item>): Request<Item> {
    var items := IncrementalItems(last, input);
    if items.Some? then Append(items.value) else Create(input)
  }

  /** A prompt that goes on from the last one is sent as the rest, however long that is. */
  lemma RestIsAppended<Item>(last: seq<Item>, rest: seq<Item>)
    requires last != [] && rest != []
    ensures Prepare(last, last + rest) == Append(rest)
  {
    assert (last + rest)[|last|..] == rest;
  }

  /** A request is an append exactly when it sends what a non-empty last prompt lacks; every other
      prompt is sent whole. */
  lemma PrepareExactly<Item>(last: seq<Item>, input: seq<Item>)
    ensures forall rest :: Prepare(last, input) == Append(rest) <==> last != [] && rest != [] && last + rest == input
    ensures Prepare(last, input).Create? ==> Prepare(last, input) == Create(input)
  {
    forall rest | last != [] && rest != [] && last + rest == input ensures Prepare(last, input) == Append(rest) {
      RestIsAppended(last, rest);
    }
  }

  /** What the server holds after a request. */
  function Receive<Item>(held: seq<Item>, request: Request<Item>): seq<Item> {
    match request
    case Create(input) => input
    case Append(input) => held + input
  }

  /** How one attempt goes, after the request has been prepared. */
  datatype Outcome =
    /** No connection: the call fails, or is retried with recovered credentials. */
    | NotConnected
    /** A connection, perhaps a new one, but sending is reported as failed; the server may have
        received the request all the same. */
    | SendFailed(replaced: bool, received: bool)
    | Sent(replaced: bool)

  datatype Attempt<Item> = Attempt(input: seq<Item>, outcome: Outcome)

  /** `last` is what the client believes was sent, `held` what the current connection's server has. */
  datatype State<Item> = State(last: seq<Item>, held: seq<Item>)

  function Step<Item(==)>(s: State<Item>, a: Attempt<Item>): State<Item> {
    match a.outcome
    case NotConnected => s
    case SendFailed(replaced, received) =>
      var held := if replaced then [] else s.held;
      s.(held := if received then Receive(held, Prepare(s.last, a.input)) else held)
    case Sent(replaced) =>
      State(a.input, Receive(if replaced then [] else s.held, Prepare(s.last, a.input)))
  }

  /** The client's side, with the server's view of the current connection beside it. */
  class WebSocketSession<Item(==)> {
    var lastItems: seq<Item>
    ghost var held: seq<Item>

    ghost function Abstract(): State<Item>
      reads this
    {
      State(lastItems, held)
    }

    constructor ()
      ensures Abstract() == State([], [])
    {
      lastItems, held := [], [];
    }

    /** One pass of the send loop. The request is prepared before the connection is obtained;
        `lastItems` is set only once the request has been delivered. */
    method Stream(input: seq<Item>, outcome: Outcome) returns (request: Request<Item>)
      modifies this
      ensures request == Prepare(old(lastItems), input)
      ensures Abstract() == Step(old(Abstract()), Attempt(input, outcome))
    {
      request := Prepare(lastItems, input);
      if outcome.NotConnected? {
        return;
      }
      if outcome.replaced {
        held := [];
      }
      if outcome.Sent? || outcome.received {
        held := Receive(held, request);
      }
      if outcome.SendFailed? {
        return;
      }
      lastItems := input;
    }
  }

  // ---------------------------------------------------------------- all runs

  function After<Item(==)>(run: seq<Attempt<Item>>): State<Item> {
    if run == [] then State([], []) else Step(After(run[..|run| - 1]), run[|run| - 1])
  }

  /** The input of the last delivered request. */
  function LatestPrompt<Item>(run: seq<Attempt<Item>>): seq<Item> {
    if run == [] then []
    else if run[|run| - 1].outcome.Sent? then run[|run| - 1].input
    else LatestPrompt(run[..|run| - 1])
  }

  // ---------------------------------------------------------------- what was sent, read off the attempts

  /** The request of attempt `i`. */
  function RequestAt<Item(==)>(run: seq<Attempt<Item>>, i: nat): Request<Item>
    requires i < |run|
  {
    Prepare(LatestPrompt(run[..i]), run[i].input)
  }

  /** In every run: an attempt appends exactly when its prompt goes on from the latest delivered
      one, and then sends just the rest. */
  lemma AppendsExactly<Item>(run: seq<Attempt<Item>>, i: nat)
    requires i < |run|
    ensures forall rest :: RequestAt(run, i) == Append(rest) <==>
      LatestPrompt(run[..i]) != [] && rest != [] && LatestPrompt(run[..i]) + rest == run[i].input
    ensures RequestAt(run, i).Create? ==> RequestAt(run, i) == Create(run[i].input)
  {
    hide Prepare, LatestPrompt;
    PrepareExactly(LatestPrompt(run[..i]), run[i].input);
  }

  /** The server receives the request, whether or not the client learns of it. */
  predicate Reaches<Item>(a: Attempt<Item>) {
    a.outcome.Sent? || (a.outcome.SendFailed? && a.outcome.received)
  }

  /** The attempt begins a new copy: on a new connection, or with a full prompt. */
  predicate Restarts<Item(==)>(run: seq<Attempt<Item>>, i: nat)
    requires i < |run|
  {
    (!run[i].outcome.NotConnected? && run[i].outcome.replaced) || (Reaches(run[i]) && RequestAt(run, i).Create?)
  }

  /** The attempt that begins the current copy, or the first. */
  function LastRestart<Item(==)>(run: seq<Attempt<Item>>, n: nat): nat
    requires n <= |run|
  {
    if n == 0 then 0 else if Restarts(run, n - 1) then n - 1 else LastRestart(run, n - 1)
  }

  /** All that reached the server in the attempts from `k` up to `n`. */
  function SentBetween<Item(==)>(run: seq<Attempt<Item>>, k: nat, n: nat): seq<Item>
    requires n <= |run|
  {
    if n <= k then []
    else SentBetween(run, k, n - 1) + if Reaches(run[n - 1]) then RequestAt(run, n - 1).input else []
  }

  /** The inputs that reached the server since the last `response.create` on the current
      connection, one after the other. */
  function Copy<Item(==)>(run: seq<Attempt<Item>>): seq<Item> {
    SentBetween(run, LastRestart(run, |run|), |run|)
  }

  lemma {:induction false} PrefixRun<Item>(run: seq<Attempt<Item>>, m: nat, k: nat, n: nat)
    requires n <= m <= |run|
    ensures LastRestart(run[..m], n) == LastRestart(run, n)
    ensures SentBetween(run[..m], k, n) == SentBetween(run, k, n)
    decreases n
  {
    hide LatestPrompt;
    if n > 0 {
      PrefixRun(run, m, k, n - 1);
      assert run[..m][..n - 1] == run[..n - 1];
    }
  }

  lemma LastRestartBounded<Item>(run: seq<Attempt<Item>>, n: nat)
    requires n <= |run|
    ensures LastRestart(run, n) <= n
  {
  }

  /** The server holds exactly those inputs, in every run. */
  lemma {:induction false} ServerHoldsCopy<Item>(run: seq<Attempt<Item>>)
    ensures After(run).held == Copy(run) && After(run).last == LatestPrompt(run)
    decreases |run|
  {
    hide Prepare;
    if run != [] {
      var n := |run| - 1;
      var init, a := run[..n], run[n];
      ServerHoldsCopy(init);
      var k := LastRestart(run, n);
      PrefixRun(run, n, k, n);
      LastRestartBounded(run, n);
      assert RequestAt(run, n) == Prepare(After(init).last, a.input);
      if Restarts(run, n) {
        assert SentBetween(run, n, n) == [];
      } else {
        assert Copy(run) == Copy(init) + if Reaches(a) then RequestAt(run, n).input else [];
      }
    }
  }

  /** Whether the server's copy is the latest delivered prompt, attempt by attempt: a delivered
      full prompt restores it, other deliveries and undelivered requests keep it as it was, a
      replaced connection starts from nothing, and a request that is received although its
      sending failed leaves a copy the client knows nothing of. */
  predicate InStep<Item(==)>(run: seq<Attempt<Item>>) {
    run == [] ||
    var init, a := run[..|run| - 1], run[|run| - 1];
    var last, request := LatestPrompt(init), Prepare(LatestPrompt(init), a.input);
    match a.outcome
    case NotConnected => InStep(init)
    case Sent(replaced) => request.Create? || (!replaced && InStep(init))
    case SendFailed(replaced, false) => if replaced then last == [] else InStep(init)
    case SendFailed(replaced, true) =>
      if request.Create? then a.input == last
      else if replaced then request.input == last
      else !InStep(init) && Copy(init) + request.input == last
  }

  lemma CancelSuffix<Item>(a: seq<Item>, b: seq<Item>, d: seq<Item>)
    requires a + d == b + d
    ensures a == b
  {
    assert |a + d| == |b + d|;
    assert (a + d)[..|a|] == a && (b + d)[..|b|] == b;
  }

  /** In every run the client's record is the latest delivered prompt, the server holds the inputs
      that reached it since the last `response.create` on its connection, and these make up that
      prompt if and only if the attempts have kept it in step. */
  lemma {:induction false} ServerHoldsPromptExactly<Item>(run: seq<Attempt<Item>>)
    ensures After(run).last == LatestPrompt(run)
    ensures After(run).held == Copy(run) && (Copy(run) == LatestPrompt(run) <==> InStep(run))
    decreases |run|
  {
    hide Copy;
    ServerHoldsCopy(run);
    if run != [] {
      var init, a := run[..|run| - 1], run[|run| - 1];
      ServerHoldsPromptExactly(init);
      ServerHoldsCopy(init);
      StepHolds(After(init), a);
    }
  }

  /** One attempt, from what the server holds and what the client believes. */
  lemma StepHolds<Item>(s: State<Item>, a: Attempt<Item>)
    ensures var t, request := Step(s, a), Prepare(s.last, a.input);
            t.held == t.last <==>
            match a.outcome
            case NotConnected => s.held == s.last
            case Sent(replaced) => request.Create? || (!replaced && s.held == s.last)
            case SendFailed(replaced, false) => if replaced then s.last == [] else s.held == s.last
            case SendFailed(replaced, true) =>
              if request.Create? then a.input == s.last
              else if replaced then request.input == s.last
              else s.held != s.last && s.held + request.input == s.last
  {
    var request := Prepare(s.last, a.input);
    if request.Append? {
      assert s.last + request.input == a.input && s.last != [] && request.input != [];
      assert [] + request.input == request.input;
      if a.outcome.Sent? && !a.outcome.replaced && s.held + request.input == s.last + request.input {
        CancelSuffix(s.held, s.last, request.input);
      }
    }
  }

  /** Nothing replaces the connection and nothing fails half-way. */
  predicate Undisturbed<Item>(a: Attempt<Item>) {
    match a.outcome
    case NotConnected => true
    case SendFailed(replaced, received) => !replaced && !received
    case Sent(replaced) => !replaced
  }

  /** On one connection that is never replaced the server always holds the latest prompt. */
  lemma {:induction false} UnreplacedConnectionAgrees<Item>(run: seq<Attempt<Item>>)
    requires forall i :: 0 <= i < |run| ==> Undisturbed(run[i])
    ensures After(run).held == LatestPrompt(run) && Copy(run) == LatestPrompt(run)
    decreases |run|
  {
    hide LatestPrompt, Copy;
    ServerHoldsCopy(run);
    ServerHoldsPromptExactly(run);
    if run != [] {
      UnreplacedConnectionAgrees(run[..|run| - 1]);
      ServerHoldsPromptExactly(run[..|run| - 1]);
    }
  }

  // ---------------------------------------------------------------- the two ways to get out of step

  lemma RunOfTwo<Item>(a: Attempt<Item>, b: Attempt<Item>)
    ensures After([a, b]) == Step(Step(State([], []), a), b)
    ensures LatestPrompt([a]) == if a.outcome.Sent? then a.input else []
    ensures LatestPrompt([a, b]) == if b.outcome.Sent? then b.input else LatestPrompt([a])
  {
    assert [a, b][..1] == [a] && [a][..0] == [];
    assert After([a]) == Step(After([]), a);
  }

  /** The request is prepared before the connection is replaced, so the new server gets only the
      new items. */
  lemma ReplacedConnectionLosesPrompt<Item>(x: Item, y: Item)
    ensures var run := [Attempt([x], Sent(false)), Attempt([x, y], Sent(true))];
            After(run).held == [y] && LatestPrompt(run) == [x, y] && !InStep(run)
  {
    var first, second := Attempt([x], Sent(false)), Attempt([x, y], Sent(true));
    RunOfTwo(first, second);
    assert Prepare([x], [x, y]) == Append([y]);
    assert [] + [y] == [y];
    ServerHoldsPromptExactly([first, second]);
  }

  /** A request received although its sending failed is appended again by the next attempt. */
  lemma ReceivedFailureRepeatsItems<Item>(x: Item, y: Item)
    ensures var first, second := Attempt([x], Sent(false)), Attempt([x, y], SendFailed(false, true));
            var run := [first, second, Attempt([x, y], Sent(false))];
            After(run).held == [x, y, y] && LatestPrompt(run) == [x, y] && !InStep(run)
  {
    var first, second, third :=
      Attempt([x], Sent(false)), Attempt([x, y], SendFailed(false, true)), Attempt([x, y], Sent(false));
    RunOfTwo(first, second);
    assert Prepare([x], [x, y]) == Append([y]);
    assert [x] + [y] == [x, y] && [x, y] + [y] == [x, y, y];
    assert [first, second, third][..2] == [first, second];
    assert After([first, second]) == State([x], [x, y]);
    ServerHoldsPromptExactly([first, second, third]);
  }
}
