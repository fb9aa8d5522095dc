/** Any number of GetBearer calls racing over the login manager: each critical section is one
    step, a call runs, waits and returns in steps of its own, and a run is any interleaving. */
module LoginProtocol {
  import opened Wrappers
  import opened Clock
  import opened LoginCache
  import Bits

  /** One call of GetBearer. */
  type CallId = nat

  datatype Reply = Reply(bearer: string, exp: Time, fromCache: bool, err: Option<Error>)

  /** Where a reply was taken from. */
  datatype Source = Cache | Login(flight: nat) | OwnContext

  datatype Call =
    | InLogin(flight: nat)     // the winner, inside loginFn
    | Waiting(flight: nat)     // attached, in the select
    | Returning(flight: nat)   // about to read the finished login
    | Done(reply: Reply, source: Source)

  /** `listening` are the calls whose login holds the listener on the fixed port. */
  datatype State = State(shared: Shared, calls: map<CallId, Call>, cancelled: set<CallId>, listening: set<CallId>)

  const INITIAL := State(EMPTY, map[], {}, {})

  const CANCELLED := Reply("", ZERO_TIME, false, Some(WaitCancelled))

  datatype Action =
    | Enter(c: CallId, force: bool, now: Time)
    | Listen(c: CallId)
    | StopListening(c: CallId)
    | Finish(c: CallId, result: LoginResult, now: Time)
    | Cancel(c: CallId)
    | Wake(c: CallId)
    | GiveUp(c: CallId)
    | Return(c: CallId)

  predicate Enabled(s: State, a: Action) {
    match a
    case Enter(c, _, _) => c !in s.calls
    case Listen(c) => c in s.calls && s.calls[c].InLogin? && c !in s.listening
    case StopListening(c) => c in s.listening
    case Finish(c, _, _) =>
      c in s.calls && s.calls[c].InLogin? && s.calls[c].flight < |s.shared.flights| && c !in s.listening
    case Cancel(c) => true
    case Wake(c) => c in s.calls && s.calls[c].Waiting? && IsClosed(s, s.calls[c].flight)
    case GiveUp(c) => c in s.calls && s.calls[c].Waiting? && c in s.cancelled
    case Return(c) => c in s.calls && s.calls[c].Returning? && IsClosed(s, s.calls[c].flight)
  }

  predicate IsClosed(s: State, f: nat) {
    f < |s.shared.flights| && s.shared.flights[f].Closed?
  }

  predicate IsOpen(s: State, f: nat) {
    f < |s.shared.flights| && s.shared.flights[f].Open?
  }

  function CallAfterEntry(e: Entry): Call {
    match e
    case Hit(b, exp) => Done(Reply(b, exp, true, None), Cache)
    case Won(f) => InLogin(f)
    case Attached(f) => Waiting(f)
  }

  function ReplyOf(o: Outcome): Reply {
    Reply(o.bearer, o.exp, false, o.err)
  }

  function Step(cfg: Config, s: State, a: Action): State
    requires Enabled(s, a)
  {
    match a
    case Enter(c, force, now) =>
      var e := EntryOf(cfg, s.shared, force, now);
      s.(shared := AfterEntry(s.shared, e), calls := s.calls[c := CallAfterEntry(e)])
    case Listen(c) => s.(listening := s.listening + {c})
    case StopListening(c) => s.(listening := s.listening - {c})
    case Finish(c, result, now) =>
      var f := s.calls[c].flight;
      s.(shared := AfterLogin(cfg, s.shared, f, result, now), calls := s.calls[c := Returning(f)])
    case Cancel(c) => s.(cancelled := s.cancelled + {c})
    case Wake(c) => s.(calls := s.calls[c := Returning(s.calls[c].flight)])
    case GiveUp(c) => s.(calls := s.calls[c := Done(CANCELLED, OwnContext)])
    case Return(c) =>
      var f := s.calls[c].flight;
      s.(calls := s.calls[c := Done(ReplyOf(s.shared.flights[f].outcome), Login(f))])
  }

  /** The state after a run, if every action of it was possible when it was taken. */
  function After(cfg: Config, run: seq<Action>): Option<State> {
    if run == [] then Some(INITIAL)
    else
      var before := After(cfg, run[..|run| - 1]);
      var a := run[|run| - 1];
      if before.Some? && Enabled(before.value, a) then Some(Step(cfg, before.value, a)) else None
  }

  // Invariants of every reachable state.

  /** One login at most is unfinished: the newest, and `current` points to it. */
  ghost predicate OneOpenFlight(s: Shared) {
    && (s.current.Some? ==> 0 < |s.flights| && s.current.value == |s.flights| - 1)
    && (forall f | 0 <= f < |s.flights| :: s.flights[f].Open? <==> s.current == Some(f))
  }

  /** Exactly one call is inside loginFn while a login is unfinished, and none otherwise. */
  ghost predicate OneWinner(s: State) {
    && (forall c | c in s.calls && s.calls[c].InLogin? :: s.shared.current == Some(s.calls[c].flight))
    && (forall c, d | c in s.calls && d in s.calls && s.calls[c].InLogin? && s.calls[d].InLogin? :: c == d)
    && (s.shared.current.Some? ==> exists c :: c in s.calls && s.calls[c].InLogin?)
  }

  /** What a call refers to exists, and what it returned is what its source holds now. */
  ghost predicate CallIsSound(s: State, c: CallId)
    requires c in s.calls
  {
    match s.calls[c]
    case InLogin(f) => IsOpen(s, f)
    case Waiting(f) => f < |s.shared.flights|
    case Returning(f) => IsClosed(s, f)
    case Done(reply, Cache) => reply.fromCache && reply.err.None? && reply.bearer != ""
    case Done(reply, Login(f)) => IsClosed(s, f) && reply == ReplyOf(s.shared.flights[f].outcome)
    case Done(reply, OwnContext) => c in s.cancelled && reply == CANCELLED
  }

  /** Only a call inside loginFn holds the listener. */
  ghost predicate ListensInLogin(s: State) {
    forall c | c in s.listening :: c in s.calls && s.calls[c].InLogin?
  }

  ghost predicate Inv(s: State) {
    OneOpenFlight(s.shared) && OneWinner(s) && ListensInLogin(s) && forall c | c in s.calls :: CallIsSound(s, c)
  }

  lemma StepKeepsFlights(cfg: Config, s: State, a: Action)
    requires OneOpenFlight(s.shared) && OneWinner(s) && Enabled(s, a)
    ensures OneOpenFlight(Step(cfg, s, a).shared)
  {
    if a.Finish? {
      assert s.shared.current == Some(s.calls[a.c].flight);
    }
  }

  lemma StepKeepsWinner(cfg: Config, s: State, a: Action)
    requires OneOpenFlight(s.shared) && OneWinner(s) && Enabled(s, a)
    ensures OneWinner(Step(cfg, s, a))
  {
    var t := Step(cfg, s, a);
    if s.shared.current.Some? && t.shared.current.Some? {
      var w :| w in s.calls && s.calls[w].InLogin?;
      assert t.calls[w].InLogin?;
    } else if t.shared.current.Some? {
      assert t.calls[a.c].InLogin?;
    }
  }

  /** Finished logins stay as they are. */
  ghost predicate Frozen(s: State, t: State) {
    |s.shared.flights| <= |t.shared.flights|
    && forall f: nat :: IsClosed(s, f) ==> IsClosed(t, f) && t.shared.flights[f] == s.shared.flights[f]
  }

  lemma StepFreezes(cfg: Config, s: State, a: Action)
    requires OneOpenFlight(s.shared) && OneWinner(s) && Enabled(s, a)
    ensures Frozen(s, Step(cfg, s, a))
  {
    if a.Finish? {
      assert s.shared.current == Some(s.calls[a.c].flight);
    }
  }

  lemma StepKeepsCall(cfg: Config, s: State, a: Action, c: CallId)
    requires Inv(s) && Enabled(s, a) && c in Step(cfg, s, a).calls
    ensures CallIsSound(Step(cfg, s, a), c)
  {
    StepFreezes(cfg, s, a);
    if c in s.calls {
      assert CallIsSound(s, c);
      if a.Finish? && a.c != c && s.calls[c].InLogin? {
        assert false;
      }
    }
  }

  lemma StepKeepsInv(cfg: Config, s: State, a: Action)
    requires Inv(s) && Enabled(s, a)
    ensures Inv(Step(cfg, s, a))
  {
    StepKeepsFlights(cfg, s, a);
    StepKeepsWinner(cfg, s, a);
    forall c | c in Step(cfg, s, a).calls ensures CallIsSound(Step(cfg, s, a), c) {
      StepKeepsCall(cfg, s, a, c);
    }
  }

  lemma {:induction false} ReachableInv(cfg: Config, run: seq<Action>)
    requires After(cfg, run).Some?
    ensures Inv(After(cfg, run).value)
  {
    if run != [] {
      var p := run[..|run| - 1];
      ReachableInv(cfg, p);
      StepKeepsInv(cfg, After(cfg, p).value, run[|run| - 1]);
    }
  }

  /** Every part of a run is a run. */
  lemma {:induction false} PrefixRuns(cfg: Config, run: seq<Action>, n: nat)
    requires After(cfg, run).Some? && n <= |run|
    ensures After(cfg, run[..n]).Some?
  {
    if n == |run| {
      assert run[..n] == run;
    } else {
      var p := run[..|run| - 1];
      PrefixRuns(cfg, p, n);
      assert p[..n] == run[..n];
    }
  }

  /** The state before action `n`. */
  ghost function At(cfg: Config, run: seq<Action>, n: nat): State
    requires After(cfg, run).Some? && n <= |run|
  {
    PrefixRuns(cfg, run, n);
    After(cfg, run[..n]).value
  }

  lemma OneStep(cfg: Config, run: seq<Action>, n: nat)
    requires After(cfg, run).Some? && n < |run|
    ensures Enabled(At(cfg, run, n), run[n])
    ensures At(cfg, run, n + 1) == Step(cfg, At(cfg, run, n), run[n])
    ensures Inv(At(cfg, run, n))
  {
    PrefixRuns(cfg, run, n);
    PrefixRuns(cfg, run, n + 1);
    assert run[..n + 1][..n] == run[..n];
    ReachableInv(cfg, run[..n]);
  }

  // Single flight.

  function CallsInLogin(s: State): set<CallId> {
    set c | c in s.calls && s.calls[c].InLogin?
  }

  /** In every reachable state at most one loginFn runs; one runs exactly while `m.flight` is
      set, and what its winner will close and clear is that very flight. */
  lemma SingleFlight(cfg: Config, run: seq<Action>)
    requires After(cfg, run).Some?
    ensures var s := After(cfg, run).value;
            && |CallsInLogin(s)| == (if s.shared.current.Some? then 1 else 0)
            && forall c | c in CallsInLogin(s) :: s.shared.current == Some(s.calls[c].flight)
  {
    ReachableInv(cfg, run);
    var s := After(cfg, run).value;
    if s.shared.current.Some? {
      var w :| w in s.calls && s.calls[w].InLogin?;
      assert CallsInLogin(s) == {w};
    } else {
      assert CallsInLogin(s) == {};
    }
  }

  /** Logins begun and logins ended in a run. */
  ghost function Begun(cfg: Config, run: seq<Action>): nat
    requires After(cfg, run).Some?
  {
    |After(cfg, run).value.shared.flights|
  }

  function Ended(run: seq<Action>): nat {
    if run == [] then 0 else Ended(run[..|run| - 1]) + (if run[|run| - 1].Finish? then 1 else 0)
  }

  /** Logins never overlap: a login begins only when all earlier ones have ended. */
  lemma {:induction false} LoginsDoNotOverlap(cfg: Config, run: seq<Action>)
    requires After(cfg, run).Some?
    ensures Begun(cfg, run) - Ended(run) == |CallsInLogin(After(cfg, run).value)| <= 1
  {
    SingleFlight(cfg, run);
    if run != [] {
      var p := run[..|run| - 1];
      LoginsDoNotOverlap(cfg, p);
      SingleFlight(cfg, p);
      ReachableInv(cfg, p);
      ReachableInv(cfg, run);
    }
  }

  /** The fixed port is never bound twice: when a login is about to listen nobody else does. */
  lemma PortIsBoundOnce(cfg: Config, run: seq<Action>, c: CallId)
    requires After(cfg, run).Some?
    ensures |After(cfg, run).value.listening| <= 1
    ensures Enabled(After(cfg, run).value, Listen(c)) ==> After(cfg, run).value.listening == {}
  {
    ReachableInv(cfg, run);
    var s := After(cfg, run).value;
    if d :| d in s.listening {
      assert s.listening == {d};
    }
  }

  // No lost waiter.

  /** The call inside loginFn can end its login, with whatever result, once it no longer holds
      the listener, which it can give up. */
  ghost predicate CanEnd(s: State, c: CallId) {
    if c in s.listening then Enabled(s, StopListening(c)) else forall r, now :: Enabled(s, Finish(c, r, now))
  }

  /** A call that has not returned can go on, unless it waits for a login that still runs;
      then the one winner of that login can finish, with whatever result. */
  lemma NobodyIsStuck(cfg: Config, run: seq<Action>, c: CallId)
    requires After(cfg, run).Some? && c in After(cfg, run).value.calls
    ensures var s := After(cfg, run).value;
            match s.calls[c]
            case Done(_, _) => true
            case Returning(_) => Enabled(s, Return(c))
            case InLogin(_) => CanEnd(s, c)
            case Waiting(f) =>
              (c in s.cancelled ==> Enabled(s, GiveUp(c)))
              && if IsClosed(s, f) then Enabled(s, Wake(c))
                 else s.shared.current == Some(f)
                      && exists w :: w in s.calls && s.calls[w] == InLogin(f) && CanEnd(s, w)
  {
    ReachableInv(cfg, run);
    var s := After(cfg, run).value;
    if s.calls[c].Waiting? && !IsClosed(s, s.calls[c].flight) {
      assert CallIsSound(s, c);
      var w :| w in s.calls && s.calls[w].InLogin?;
      assert s.calls[w] == InLogin(s.calls[c].flight);
    }
  }

  /** Once its login is over, a waiting call is served the winner's result whenever it is
      scheduled: whatever the other calls do before and in between. */
  lemma WaiterIsServed(cfg: Config, run: seq<Action>, c: CallId, before: seq<Action>, between: seq<Action>)
    requires After(cfg, run).Some? && After(cfg, run + before + [Wake(c)] + between).Some?
    requires c in After(cfg, run).value.calls && After(cfg, run).value.calls[c].Waiting?
    requires IsClosed(After(cfg, run).value, After(cfg, run).value.calls[c].flight)
    requires forall a | a in before + between :: a.c != c || a.Cancel?
    ensures var s := After(cfg, run).value;
            var f := s.calls[c].flight;
            var late := run + before + [Wake(c)] + between;
            && Enabled(After(cfg, late).value, Return(c))
            && After(cfg, late + [Return(c)]).Some?
            && After(cfg, late + [Return(c)]).value.calls[c] == Done(ReplyOf(s.shared.flights[f].outcome), Login(f))
  {
    var r1 := run + before;
    var r2 := r1 + [Wake(c)];
    var r3 := r2 + between;
    PrefixRuns(cfg, r3, |r2|);
    assert r3[..|r2|] == r2 && r2[..|r1|] == r1;
    PrefixRuns(cfg, r2, |r1|);
    ReachableInv(cfg, r1);
    OthersKeep(cfg, run, before, c);
    assert r2[..|r2| - 1] == r1;
    OthersKeep(cfg, r2, between, c);
    assert (r3 + [Return(c)])[..|r3|] == r3;
    ReachableInv(cfg, r3);
  }

  /** Over any stretch without its own steps a call stays where it is, and finished logins
      stay as they are. */
  lemma {:induction false} OthersKeep(cfg: Config, run: seq<Action>, more: seq<Action>, c: CallId)
    requires After(cfg, run + more).Some?
    requires forall a | a in more :: a.c != c || a.Cancel?
    ensures After(cfg, run).Some?
    ensures var s, t := After(cfg, run).value, After(cfg, run + more).value;
            (c in s.calls ==> c in t.calls && t.calls[c] == s.calls[c]) && Frozen(s, t)
  {
    if more == [] {
      assert run + more == run;
    } else {
      var p := more[..|more| - 1];
      assert (run + more)[..|run + more| - 1] == run + p;
      OthersKeep(cfg, run, p, c);
      ReachableInv(cfg, run + p);
      var a := more[|more| - 1];
      assert a in more;
      StepFreezes(cfg, After(cfg, run + p).value, a);
    }
  }

  // Where replies come from.

  /** Action `k` ends login `f` with this result. */
  ghost predicate Ends(cfg: Config, run: seq<Action>, k: nat, f: nat)
    requires After(cfg, run).Some?
  {
    k < |run| && run[k].Finish?
    && var s := At(cfg, run, k); run[k].c in s.calls && s.calls[run[k].c] == InLogin(f)
  }

  /** The pair the last successful login of a run installed. */
  function LastInstalled(cfg: Config, run: seq<Action>): (string, Time) {
    if run == [] then ("", ZERO_TIME)
    else
      var a := run[|run| - 1];
      if a.Finish? && a.result.Ok? then
        var parsed := cfg.parseExp(a.result.value);
        (a.result.value, if parsed.Some? then parsed.value else a.now + 300 * SECOND)
      else LastInstalled(cfg, run[..|run| - 1])
  }

  /** The cache is that pair: failures, cancellations and everything else leave it alone. */
  lemma {:induction false} CacheIsLastInstalled(cfg: Config, run: seq<Action>)
    requires After(cfg, run).Some?
    ensures var s := After(cfg, run).value.shared; (s.bearer, s.expiresAt) == LastInstalled(cfg, run)
  {
    if run != [] {
      CacheIsLastInstalled(cfg, run[..|run| - 1]);
    }
  }

  /** What the cache does for a caller, in every run, whether or not a login is running and whatever
      became of earlier ones: it serves an unforced caller exactly while the pair installed last is
      a bearer that is fresh. */
  lemma ServedExactlyWhen(cfg: Config, run: seq<Action>, c: CallId, force: bool, now: Time)
    requires After(cfg, run).Some? && c !in After(cfg, run).value.calls
    ensures var later := After(cfg, run + [Enter(c, force, now)]);
            var (b, e) := LastInstalled(cfg, run);
            && later.Some? && c in later.value.calls
            && (later.value.calls[c] == Done(Reply(b, e, true, None), Cache) <==>
                  !force && b != "" && e != ZERO_TIME && now < e - cfg.refreshMargin)
  {
    OneMoreAction(cfg, run, Enter(c, force, now));
    CacheIsLastInstalled(cfg, run);
    hide After, LastInstalled;
  }

  /** How a call that is bound to login `f` got there: it entered at action `i`, after which
      the login was still unfinished. */
  ghost predicate JoinedAt(cfg: Config, run: seq<Action>, c: CallId, f: nat, i: nat)
    requires After(cfg, run).Some?
  {
    i < |run| && run[i].Enter? && run[i].c == c && IsOpen(At(cfg, run, i + 1), f)
  }

  /** A call served from the cache entered, unforced, while the pair installed last was fresh. */
  ghost predicate HitAt(cfg: Config, run: seq<Action>, c: CallId, reply: Reply, i: nat)
    requires After(cfg, run).Some?
  {
    && i < |run| && run[i].Enter? && run[i].c == c && !run[i].force
    && (reply.bearer, reply.exp) == LastInstalled(cfg, run[..i])
    && reply.exp != ZERO_TIME && run[i].now < reply.exp - cfg.refreshMargin
  }

  function FlightOf(call: Call): Option<nat> {
    match call
    case Done(_, source) => if source.Login? then Some(source.flight) else None
    case _ => Some(call.flight)
  }

  ghost predicate Explained(cfg: Config, run: seq<Action>, c: CallId, call: Call)
    requires After(cfg, run).Some?
  {
    && (FlightOf(call).Some? ==> exists i :: JoinedAt(cfg, run, c, FlightOf(call).value, i))
    && (call.Done? && call.source.Cache? ==> exists i :: HitAt(cfg, run, c, call.reply, i))
  }

  /** What held of a run still holds of a longer one. */
  lemma Longer(cfg: Config, run: seq<Action>, a: Action)
    requires After(cfg, run + [a]).Some?
    ensures After(cfg, run).Some?
    ensures forall n | 0 <= n <= |run| :: At(cfg, run + [a], n) == At(cfg, run, n)
    ensures forall c, f, i | JoinedAt(cfg, run, c, f, i) :: JoinedAt(cfg, run + [a], c, f, i)
    ensures forall c, r, i | HitAt(cfg, run, c, r, i) :: HitAt(cfg, run + [a], c, r, i)
    ensures forall k, f | Ends(cfg, run, k, f) :: Ends(cfg, run + [a], k, f)
  {
    var long := run + [a];
    assert long[..|run|] == run;
    PrefixRuns(cfg, long, |run|);
    assert forall n | 0 <= n <= |run| :: long[..n] == run[..n];
  }

  lemma StillExplained(cfg: Config, run: seq<Action>, a: Action, c: CallId, call: Call)
    requires After(cfg, run + [a]).Some? && After(cfg, run).Some? && Explained(cfg, run, c, call)
    ensures Explained(cfg, run + [a], c, call)
  {
    Longer(cfg, run, a);
  }

  /** A call that has just entered. */
  lemma NewcomerExplained(cfg: Config, run: seq<Action>, a: Action)
    requires After(cfg, run + [a]).Some? && a.Enter?
    ensures Explained(cfg, run + [a], a.c, After(cfg, run + [a]).value.calls[a.c])
  {
    var long := run + [a];
    var n := |run|;
    assert long[..n] == run && long[..n + 1] == long;
    PrefixRuns(cfg, long, n);
    CacheIsLastInstalled(cfg, run);
    ReachableInv(cfg, run);
    var call := After(cfg, long).value.calls[a.c];
    if call.Done? {
      assert HitAt(cfg, long, a.c, call.reply, n);
    } else {
      assert JoinedAt(cfg, long, a.c, call.flight, n);
    }
  }

  lemma {:induction false} CallsAreExplained(cfg: Config, run: seq<Action>, c: CallId)
    requires After(cfg, run).Some? && c in After(cfg, run).value.calls
    ensures Explained(cfg, run, c, After(cfg, run).value.calls[c])
  {
    var p, a := run[..|run| - 1], run[|run| - 1];
    assert run == p + [a];
    var s := After(cfg, p).value;
    if c in s.calls {
      CallsAreExplained(cfg, p, c);
      StillExplained(cfg, p, a, c, s.calls[c]);
    } else {
      NewcomerExplained(cfg, p, a);
    }
  }

  /** Every finished login was ended by one action of the run, which fixed its outcome. */
  lemma {:induction false} ClosedWasEnded(cfg: Config, run: seq<Action>, f: nat) returns (k: nat)
    requires After(cfg, run).Some? && IsClosed(After(cfg, run).value, f)
    ensures Ends(cfg, run, k, f)
    ensures After(cfg, run).value.shared.flights[f].outcome == OutcomeOf(cfg, run[k].result, run[k].now)
    ensures forall n | 0 <= n <= k :: !IsClosed(At(cfg, run, n), f)
  {
    var p, a := run[..|run| - 1], run[|run| - 1];
    assert run == p + [a];
    Longer(cfg, p, a);
    var s := After(cfg, p).value;
    ReachableInv(cfg, p);
    if IsClosed(s, f) {
      k := ClosedWasEnded(cfg, p, f);
      StepFreezes(cfg, s, a);
    } else {
      k := |p|;
      assert At(cfg, run, k) == s by { assert run[..k] == p; }
      forall n | 0 <= n <= k ensures !IsClosed(At(cfg, run, n), f) {
        if IsClosed(At(cfg, run, n), f) {
          StaysClosed(cfg, run, n, k, f);
        }
      }
    }
  }

  lemma {:induction false} StaysClosed(cfg: Config, run: seq<Action>, n: nat, m: nat, f: nat)
    requires After(cfg, run).Some? && n <= m <= |run| && IsClosed(At(cfg, run, n), f)
    ensures IsClosed(At(cfg, run, m), f)
    ensures At(cfg, run, m).shared.flights[f] == At(cfg, run, n).shared.flights[f]
  {
    if n < m {
      StaysClosed(cfg, run, n, m - 1, f);
      OneStep(cfg, run, m - 1);
    }
  }

  lemma EndingCloses(cfg: Config, run: seq<Action>, k: nat, f: nat)
    requires After(cfg, run).Some? && Ends(cfg, run, k, f)
    ensures IsClosed(At(cfg, run, k + 1), f)
  {
    OneStep(cfg, run, k);
  }

  /** A login that was open after action `i` is ended later. */
  lemma EndsLater(cfg: Config, run: seq<Action>, c: CallId, f: nat, i: nat, k: nat)
    requires After(cfg, run).Some? && JoinedAt(cfg, run, c, f, i) && Ends(cfg, run, k, f)
    ensures i < k
  {
    EndingCloses(cfg, run, k, f);
    assert IsOpen(At(cfg, run, i + 1), f);
    if k <= i {
      StaysClosed(cfg, run, k + 1, i + 1, f);
    }
  }

  /** The reply to call `c` is what login `f` came to, by action `k`, after `c` entered at `i`. */
  ghost predicate SharedAt(cfg: Config, run: seq<Action>, c: CallId, reply: Reply, f: nat, i: nat, k: nat)
    requires After(cfg, run).Some?
  {
    && i < k && JoinedAt(cfg, run, c, f, i) && Ends(cfg, run, k, f)
    && reply == ReplyOf(OutcomeOf(cfg, run[k].result, run[k].now))
  }

  /** A reply is one of three: the cached pair, fresh when the caller took the lock; the
      caller's own cancellation; or exactly the outcome of one login that was still
      unfinished when the caller took the lock and ended later, forced or not. */
  lemma EveryReply(cfg: Config, run: seq<Action>, c: CallId)
    requires After(cfg, run).Some? && c in After(cfg, run).value.calls && After(cfg, run).value.calls[c].Done?
    ensures var call := After(cfg, run).value.calls[c];
            match call.source
            case Cache => call.reply.fromCache && exists i :: HitAt(cfg, run, c, call.reply, i)
            case OwnContext => c in After(cfg, run).value.cancelled && call.reply == CANCELLED
            case Login(f) => exists i, k :: SharedAt(cfg, run, c, call.reply, f, i, k)
  {
    ReachableInv(cfg, run);
    CallsAreExplained(cfg, run, c);
    var s := After(cfg, run).value;
    assert CallIsSound(s, c);
    if s.calls[c].source.Login? {
      var f := s.calls[c].source.flight;
      var i: nat :| JoinedAt(cfg, run, c, f, i);
      var k := ClosedWasEnded(cfg, run, f);
      EndsLater(cfg, run, c, f, i, k);
      assert SharedAt(cfg, run, c, s.calls[c].reply, f, i, k);
    }
  }

  /** Entering starts a new login if and only if none is running, whether forced or not. */
  lemma StartsExactlyWhen(cfg: Config, run: seq<Action>, c: CallId, f: nat, i: nat)
    requires After(cfg, run).Some? && JoinedAt(cfg, run, c, f, i)
    ensures f == |At(cfg, run, i).shared.flights| <==> At(cfg, run, i).shared.current.None?
  {
    OneStep(cfg, run, i);
    StepKeepsInv(cfg, At(cfg, run, i), run[i]);
  }

  /** A forced call that starts nothing: it waits for the login of another. */
  lemma ForcedCallAttaches(cfg: Config, now: Time)
    ensures var run := [Enter(0, false, now), Enter(1, true, now)];
            After(cfg, run).Some? && After(cfg, run).value.calls[1] == Waiting(0)
            && After(cfg, run).value.shared.flights == [Open]
  {
    var first, second := Enter(0, false, now), Enter(1, true, now);
    assert [first, second][..1] == [first] && [first][..0] == [];
    assert After(cfg, [first]) == Some(Step(cfg, INITIAL, first));
  }

  /** The reply of a call to login `f`. */
  ghost predicate RepliedBy(cfg: Config, run: seq<Action>, c: CallId, f: nat)
    requires After(cfg, run).Some?
  {
    var calls := After(cfg, run).value.calls;
    c in calls && calls[c].Done? && calls[c].source == Login(f)
  }

  /** The action that ended the login whose outcome a call returned. */
  lemma EndingAction(cfg: Config, run: seq<Action>, c: CallId, f: nat) returns (i: nat, k: nat)
    requires After(cfg, run).Some? && RepliedBy(cfg, run, c, f)
    ensures SharedAt(cfg, run, c, After(cfg, run).value.calls[c].reply, f, i, k)
  {
    EveryReply(cfg, run, c);
    i, k :| SharedAt(cfg, run, c, After(cfg, run).value.calls[c].reply, f, i, k);
  }

  /** In every run the bearer a call got from a login was fresh when, at action `k`, the login ended
      if and only if its expiry lay more than the margin ahead: the parsed one, or else the default
      time to live. */
  lemma FreshExactlyWhen(cfg: Config, run: seq<Action>, c: CallId, f: nat) returns (k: nat)
    requires After(cfg, run).Some? && RepliedBy(cfg, run, c, f)
    ensures Ends(cfg, run, k, f)
    ensures IsFresh(cfg, After(cfg, run).value.calls[c].reply.exp, run[k].now) <==>
              run[k].result.Ok?
              && match cfg.parseExp(run[k].result.value)
                 case Some(exp) => exp != ZERO_TIME && exp > run[k].now + cfg.refreshMargin
                 case None => cfg.refreshMargin < DEFAULT_TTL && run[k].now + DEFAULT_TTL != ZERO_TIME
  {
    var i;
    i, k := EndingAction(cfg, run, c, f);
  }

  /** In every run a call that shared a login got an error if and only if the login returned one at
      action `k`, be it for the winner's own cancellation, and then it is that one. */
  lemma ErrorExactlyWhen(cfg: Config, run: seq<Action>, c: CallId, f: nat) returns (k: nat)
    requires After(cfg, run).Some? && RepliedBy(cfg, run, c, f)
    ensures Ends(cfg, run, k, f)
    ensures After(cfg, run).value.calls[c].reply.err ==
              if run[k].result.Err? then Some(LoginFailed(run[k].result.error)) else None
  {
    var i;
    i, k := EndingAction(cfg, run, c, f);
  }

  /** In every run a call that shared a login got exactly what the login returned at action `k`: its
      bearer, with the parsed expiry or else 300 seconds, or its error. */
  lemma RepliesWithTheResult(cfg: Config, run: seq<Action>, c: CallId, f: nat) returns (k: nat)
    requires After(cfg, run).Some? && RepliedBy(cfg, run, c, f)
    ensures Ends(cfg, run, k, f)
    ensures After(cfg, run).value.calls[c].reply ==
              match run[k].result
              case Err(cause) => Reply("", ZERO_TIME, false, Some(LoginFailed(cause)))
              case Ok(b) =>
                var parsed := cfg.parseExp(b);
                Reply(b, if parsed.Some? then parsed.value else run[k].now + 300 * SECOND, false, None)
  {
    var i;
    i, k := EndingAction(cfg, run, c, f);
  }

  /** A waiter whose context is cancelled can leave with its own error, whatever the others do
      before it goes and although its login still runs. */
  lemma CancelledWaiterLeaves(cfg: Config, run: seq<Action>, c: CallId, between: seq<Action>)
    requires After(cfg, run).Some? && c in After(cfg, run).value.calls && After(cfg, run).value.calls[c].Waiting?
    requires After(cfg, run + [Cancel(c)] + between).Some?
    requires forall a | a in between :: a.c != c
    ensures var late := After(cfg, run + [Cancel(c)] + between + [GiveUp(c)]);
            late.Some? && c in late.value.calls
            && late.value.calls[c] == Done(Reply("", ZERO_TIME, false, Some(WaitCancelled)), OwnContext)
  {
    OneMoreAction(cfg, run, Cancel(c));
    OthersKeep(cfg, run + [Cancel(c)], between, c);
    CancelledStays(cfg, run + [Cancel(c)], between, c);
    OneMoreAction(cfg, run + [Cancel(c)] + between, GiveUp(c));
    hide After;
  }

  lemma {:induction false} CancelledStays(cfg: Config, run: seq<Action>, more: seq<Action>, c: CallId)
    requires After(cfg, run + more).Some? && After(cfg, run).Some? && c in After(cfg, run).value.cancelled
    ensures c in After(cfg, run + more).value.cancelled
  {
    if more == [] {
      assert run + more == run;
    } else {
      var p := more[..|more| - 1];
      assert (run + more)[..|run + more| - 1] == run + p;
      CancelledStays(cfg, run, p, c);
    }
  }

  /** A caller that gives up nothing and still gets the error of the cancelled winner. */
  lemma WinnersErrorIsShared(cfg: Config, now: Time, cause: string)
    ensures var run :=
              [Enter(0, true, now), Enter(1, true, now), Cancel(0), Finish(0, Err(cause), now), Wake(1), Return(1)];
            && After(cfg, run).Some? && After(cfg, run).value.cancelled == {0}
            && After(cfg, run).value.calls[1] == Done(Reply("", ZERO_TIME, false, Some(LoginFailed(cause))), Login(0))
  {
    var enter := [Enter(0, true, now), Enter(1, true, now)];
    var ended := [Enter(0, true, now), Enter(1, true, now), Cancel(0), Finish(0, Err(cause), now)];
    TwoForced(cfg, now);
    assert ended == enter + [Cancel(0)] + [Finish(0, Err(cause), now)];
    var o := OutcomeOf(cfg, Err(cause), now);
    var s1 := State(Shared("", ZERO_TIME, [Open], Some(0)), map[0 := InLogin(0), 1 := Waiting(0)], {}, {});
    var s2 := State(Shared("", ZERO_TIME, [Closed(o)], None), map[0 := Returning(0), 1 := Waiting(0)], {0}, {});
    TwoMoreActions(cfg, enter, s1, Cancel(0), s1.(cancelled := {0}), Finish(0, Err(cause), now), s2);
    var s3 := s2.(calls := map[0 := Returning(0), 1 := Returning(0)]);
    var s4 := s2.(calls := map[0 := Returning(0), 1 := Done(ReplyOf(o), Login(0))]);
    TwoMoreActions(cfg, ended, s2, Wake(1), s3, Return(1), s4);
    assert ended + [Wake(1)] + [Return(1)]
        == [Enter(0, true, now), Enter(1, true, now), Cancel(0), Finish(0, Err(cause), now), Wake(1), Return(1)];
    hide After, Step, Enabled;
  }

  lemma TwoForced(cfg: Config, now: Time)
    ensures After(cfg, [Enter(0, true, now), Enter(1, true, now)])
         == Some(State(Shared("", ZERO_TIME, [Open], Some(0)), map[0 := InLogin(0), 1 := Waiting(0)], {}, {}))
  {
    var none: seq<Action> := [];
    var s1 := State(Shared("", ZERO_TIME, [Open], Some(0)), map[0 := InLogin(0)], {}, {});
    OneMoreAction(cfg, none, Enter(0, true, now));
    var s2 := s1.(calls := map[0 := InLogin(0), 1 := Waiting(0)]);
    TwoMoreActions(cfg, none, INITIAL, Enter(0, true, now), s1, Enter(1, true, now), s2);
    assert none + [Enter(0, true, now)] + [Enter(1, true, now)] == [Enter(0, true, now), Enter(1, true, now)];
  }

  lemma TwoMoreActions(cfg: Config, run: seq<Action>, s: State, a: Action, t: State, b: Action, u: State)
    requires After(cfg, run) == Some(s)
    requires Enabled(s, a) && Step(cfg, s, a) == t && Enabled(t, b) && Step(cfg, t, b) == u
    ensures After(cfg, run + [a] + [b]) == Some(u)
  {
    OneMoreAction(cfg, run, a);
    OneMoreAction(cfg, run + [a], b);
  }

  lemma OneMoreAction(cfg: Config, run: seq<Action>, a: Action)
    ensures var before := After(cfg, run);
            After(cfg, run + [a]) ==
              if before.Some? && Enabled(before.value, a) then Some(Step(cfg, before.value, a)) else None
    ensures After(cfg, []) == Some(INITIAL)
  {
    assert (run + [a])[..|run|] == run;
  }

  /** A login that hands its caller a bearer inside the margin. */
  lemma StaleBearerIsReturned(cfg: Config, bearer: string, now: Time)
    requires cfg.parseExp(bearer) == Some(now) && cfg.refreshMargin >= 0
    ensures var run := [Enter(0, false, now), Finish(0, Ok(bearer), now), Return(0)];
            && After(cfg, run).Some?
            && After(cfg, run).value.calls[0] == Done(Reply(bearer, now, false, None), Login(0))
            && !IsFresh(cfg, now, now)
  {
    var enter, finish, back := Enter(0, false, now), Finish(0, Ok(bearer), now), Return(0);
    assert [enter, finish, back][..2] == [enter, finish] && [enter, finish][..1] == [enter] && [enter][..0] == [];
    assert After(cfg, [enter]) == Some(Step(cfg, INITIAL, enter));
    assert After(cfg, [enter, finish]) == Some(Step(cfg, Step(cfg, INITIAL, enter), finish));
  }

  // How often a login can run.

  ghost predicate Begins(cfg: Config, run: seq<Action>, i: nat)
    requires After(cfg, run).Some?
  {
    i < |run| && run[i].Enter? && EntryOf(cfg, At(cfg, run, i).shared, run[i].force, run[i].now).Won?
  }

  /** Between the end of a login and the beginning of the next the cache does not change. */
  lemma {:induction false} QuietBetween(cfg: Config, run: seq<Action>, i: nat, j: nat)
    requires After(cfg, run).Some? && i < j <= |run| && run[i].Finish?
    requires forall k | i < k < j :: !Begins(cfg, run, k)
    ensures var s, t := At(cfg, run, i + 1).shared, At(cfg, run, j).shared;
            t.current.None? && t.bearer == s.bearer && t.expiresAt == s.expiresAt
  {
    OneStep(cfg, run, j - 1);
    if i + 1 < j {
      QuietBetween(cfg, run, i, j - 1);
      assert !Begins(cfg, run, j - 1);
    }
  }

  /** The rate bound: after a login that returned a bearer, the next login an unforced caller
      starts reads a clock no earlier than the expiry minus the margin. */
  lemma NextLoginIsDue(cfg: Config, run: seq<Action>, i: nat, j: nat)
    requires After(cfg, run).Some? && i < j < |run|
    requires run[i].Finish? && run[i].result.Ok? && run[i].result.value != ""
    requires Begins(cfg, run, j) && !run[j].force
    requires forall k | i < k < j :: !Begins(cfg, run, k)
    ensures var parsed := cfg.parseExp(run[i].result.value);
            var exp := if parsed.Some? then parsed.value else run[i].now + DEFAULT_TTL;
            exp == ZERO_TIME || run[j].now >= exp - cfg.refreshMargin
  {
    OneStep(cfg, run, i);
    QuietBetween(cfg, run, i, j);
  }

  /** For a token without a readable expiry: its time to live less the margin, at least. */
  lemma OpaqueTokenRate(cfg: Config, run: seq<Action>, i: nat, j: nat)
    requires After(cfg, run).Some? && i < j < |run|
    requires run[i].Finish? && run[i].result.Ok? && run[i].result.value != ""
    requires Begins(cfg, run, j) && !run[j].force
    requires forall k | i < k < j :: !Begins(cfg, run, k)
    requires cfg.parseExp(run[i].result.value).None? && run[i].now + DEFAULT_TTL != ZERO_TIME
    ensures run[j].now - run[i].now >= DEFAULT_TTL - cfg.refreshMargin
    ensures cfg.refreshMargin == MarginOf(0) ==> run[j].now - run[i].now >= 240 * SECOND
  {
    NextLoginIsDue(cfg, run, i, j);
  }

  predicate ReadsClock(a: Action) {
    a.Enter? || a.Finish?
  }

  /** The clock never runs back. */
  ghost predicate Clocked(run: seq<Action>) {
    forall i, j | 0 <= i <= j < |run| && ReadsClock(run[i]) && ReadsClock(run[j]) :: run[i].now <= run[j].now
  }

  /** A login that returned a bearer which stays fresh for at least `d`. */
  predicate Lasts(cfg: Config, a: Action, d: int) {
    && a.Finish? && a.result.Ok? && a.result.value != ""
    && var exp := ExpiryOf(cfg, a.result.value, a.now); exp != ZERO_TIME && exp - cfg.refreshMargin >= a.now + d
  }

  /** Logins begun by the actions from `a` up to `b`. */
  ghost function BegunIn(cfg: Config, run: seq<Action>, a: nat, b: nat): int
    requires After(cfg, run).Some? && a <= b <= |run|
  {
    |At(cfg, run, b).shared.flights| - |At(cfg, run, a).shared.flights|
  }

  lemma OneMoreBegun(cfg: Config, run: seq<Action>, a: nat, b: nat)
    requires After(cfg, run).Some? && a <= b < |run|
    ensures BegunIn(cfg, run, a, b + 1) == BegunIn(cfg, run, a, b) + (if Begins(cfg, run, b) then 1 else 0)
  {
    OneStep(cfg, run, b);
  }

  /** Between the beginning of a login and that of a later one some login ends. */
  lemma {:induction false} EndsBetween(cfg: Config, run: seq<Action>, i: nat, j: nat) returns (k: nat)
    requires After(cfg, run).Some? && i < j <= |run|
    requires At(cfg, run, i).shared.current.Some? && At(cfg, run, j).shared.current.None?
    ensures i <= k < j && run[k].Finish?
  {
    hide At, After, Inv, Enabled, IsFresh;
    OneStep(cfg, run, j - 1);
    if run[j - 1].Finish? {
      k := j - 1;
    } else {
      k := EndsBetween(cfg, run, i, j - 1);
    }
  }

  lemma BeginningOpens(cfg: Config, run: seq<Action>, i: nat)
    requires After(cfg, run).Some? && Begins(cfg, run, i)
    ensures run[i].Enter? && At(cfg, run, i).shared.current.None? && At(cfg, run, i + 1).shared.current.Some?
  {
    OneStep(cfg, run, i);
  }

  /** From the beginning of a login to that of the next, if it returns a bearer that lasts. */
  lemma NextBeginning(cfg: Config, run: seq<Action>, l: nat, j: nat, d: nat)
    requires After(cfg, run).Some? && l < j < |run| && Clocked(run)
    requires Begins(cfg, run, l) && Begins(cfg, run, j) && !run[j].force
    requires forall k | l < k < j :: !Begins(cfg, run, k)
    requires forall k | l < k < j && run[k].Finish? :: Lasts(cfg, run[k], d)
    ensures run[l].Enter? && run[j].now >= run[l].now + d
  {
    hide At, After, EntryOf, Begins;
    BeginningOpens(cfg, run, l);
    BeginningOpens(cfg, run, j);
    var k := EndsBetween(cfg, run, l + 1, j);
    assert Lasts(cfg, run[k], d);
    NextLoginIsDue(cfg, run, k, j);
    assert run[l].now <= run[k].now;
  }

  /** Callers are unforced, and logins return bearers that last for `d`. */
  ghost predicate Steady(cfg: Config, run: seq<Action>, a: nat, b: nat, d: nat)
    requires a <= b <= |run|
  {
    && (forall i | a <= i < b && run[i].Enter? :: !run[i].force)
    && (forall i | a <= i < b && run[i].Finish? :: Lasts(cfg, run[i], d))
  }

  /** Over any such stretch `n` logins need a time of `(n - 1) * d`: that from the beginning of
      the first, `s`, to the beginning of the last, `l`. */
  lemma {:induction false} LoginsTakeTime(cfg: Config, run: seq<Action>, a: nat, b: nat, d: nat)
    returns (s: nat, l: nat)
    requires After(cfg, run).Some? && a <= b <= |run| && Clocked(run) && Steady(cfg, run, a, b, d)
    requires BegunIn(cfg, run, a, b) > 0
    ensures a <= s <= l < b && Begins(cfg, run, s) && Begins(cfg, run, l)
    ensures forall k | l < k < b :: !Begins(cfg, run, k)
    ensures run[l].now - run[s].now >= (BegunIn(cfg, run, a, b) - 1) * d
    decreases b
  {
    hide At, After, EntryOf, Begins, BegunIn, Clocked, Lasts;
    if a == b {
      NothingBegun(cfg, run, a);
    }
    OneMoreBegun(cfg, run, a, b - 1);
    var n := BegunIn(cfg, run, a, b);
    if !Begins(cfg, run, b - 1) {
      s, l := LoginsTakeTime(cfg, run, a, b - 1, d);
    } else if n == 1 {
      BeginningOpens(cfg, run, b - 1);
      s, l := b - 1, b - 1;
    } else {
      s, l := LoginsTakeTime(cfg, run, a, b - 1, d);
      BeginningOpens(cfg, run, b - 1);
      NextBeginning(cfg, run, l, b - 1, d);
      assert (n - 2) * d + d == (n - 1) * d;
      l := b - 1;
    }
  }

  lemma NothingBegun(cfg: Config, run: seq<Action>, a: nat)
    requires After(cfg, run).Some? && a <= |run|
    ensures BegunIn(cfg, run, a, a) == 0
  {}

  /** So a window of `w` on the clock sees at most `w / d + 1` of them. */
  lemma LoginsInWindow(cfg: Config, run: seq<Action>, a: nat, b: nat, d: nat, w: nat)
    requires After(cfg, run).Some? && a <= b <= |run| && Clocked(run) && Steady(cfg, run, a, b, d) && d > 0
    requires forall i, j | a <= i <= j < b && run[i].Enter? && run[j].Enter? :: run[j].now - run[i].now <= w
    ensures BegunIn(cfg, run, a, b) <= w / d + 1
  {
    hide At, After, EntryOf, BegunIn, Clocked, Lasts, Steady;
    var n := BegunIn(cfg, run, a, b);
    if n > 0 {
      var s, l := LoginsTakeTime(cfg, run, a, b, d);
      QuotientBounds(n - 1, d, w);
    }
  }

  lemma QuotientBounds(n: nat, d: nat, w: nat)
    requires n * d <= w && d > 0
    ensures n <= w / d
  {
    var q := w / d;
    assert w == d * q + w % d;
    assert d * (n - q) == d * n - d * q;
    Bits.MulSign(d, n - q);
  }
}
