/** The loops of a login as they run: the enrolment, one pass of the polling loop and the loop itself,
    each proved to be the recursion that the theorems are about, and to come to what they say. */
module LoginLoop {
  import opened Wrappers
  import opened Clock
  import opened Text
  import opened Totp
  import opened PageUrl
  import opened LoginPolling
  import opened LoginOutcome

  lemma AfterAfter(a: Effects, b: Effects, r: EnrollRun)
    ensures After(a, After(b, r)) == After(a + b, r)
  {
    assert a + (b + r.effects) == (a + b) + r.effects;
  }

  /** enrollTOTPRobust */
  method EnrollTotpRobust(mac: Mac, cur: string, already: bool, start: Time, turns: seq<EnrollTurn>)
    returns (r: EnrollRun)
    ensures r == EnrollLoop(mac, cur, already, start + 60 * SECOND, turns)
    ensures Contains(cur, CONFIGURE_TOTP_MARKER) && !already ==>
              && EnrolmentEnds(mac, start + 60 * SECOND, turns, r)
              && EnrolmentDoes(mac, start + 60 * SECOND, turns, r.effects)
  {
    hide MaybeEnroll, EnrolmentEnds, EnrolmentDoes, Contains;
    if Contains(cur, CONFIGURE_TOTP_MARKER) {
      EnrolmentEndsSo(mac, cur, start + 60 * SECOND, turns);
      EnrolmentDoesSo(mac, cur, start + 60 * SECOND, turns);
    }
    var subDeadline := start + ENROLL_WINDOW;
    var enrolled := already;
    var effects: Effects := [];
    var i := 0;
    while i < |turns| && turns[i].at < subDeadline
      invariant 0 <= i <= |turns|
      invariant EnrollLoop(mac, cur, already, subDeadline, turns)
             == After(effects, EnrollLoop(mac, cur, enrolled, subDeadline, turns[i..]))
    {
      var o := turns[i];
      var a := MaybeEnroll(mac, cur, enrolled, o);
      ghost var before := effects;
      enrolled := a.enrolled;
      effects := effects + ([EnrollTried] + FormEffects(a, o));
      if a.err.Some? {
        return EnrollRun(Returned(false, a.err), enrolled, effects);
      }
      if a.ok {
        return EnrollRun(Returned(true, None), enrolled, effects);
      }
      if o.rebindAfter.Broken? {
        return EnrollRun(Returned(false, Some(RebindFailed)), enrolled, effects);
      }
      if o.rootDone {
        return EnrollRun(Returned(false, Some(RootDone)), enrolled, effects);
      }
      effects := effects + [EnrollPaused];
      assert turns[i..][1..] == turns[i + 1..];
      ghost var turn: Effects := [EnrollTried] + FormEffects(a, o) + [EnrollPaused];
      AfterAfter(before, turn, EnrollLoop(mac, cur, enrolled, subDeadline, turns[i + 1..]));
      assert before + turn == effects;
      i := i + 1;
    }
    assert effects + [] == effects;
    if i == |turns| {
      return EnrollRun(EnrollCut, enrolled, effects);
    }
    return EnrollRun(Returned(false, Some(EnrollWindowOver)), enrolled, effects);
  }

  /** One turn of the loop body of awaitAuthenticated, acting on the flags step by step. */
  method IterateStep(cfg: Config, f: Flags, o: Observation) returns (it: Iteration)
    ensures it == Iterate(cfg, f, o) && Orderly(f, o, it)
    ensures EndsSo(cfg, f, o, it) && LeavesFlags(cfg, f, o, it.flags) && DoesSo(cfg, f, o, it.effects)
  {
    hide EndsSo, LeavesFlags, DoesSo, EnrolmentEnds, EnrolmentDoes, Contains;
    IterationIsOrderly(cfg, f, o);
    PassMeans(cfg, f, o);
    hide IsAuthenticatedUrl, IsGovBrUrl, IsConfigureTotpUrl, EnrollLoop, MaybeHandle2Fa, RetryCert, Orderly, Times;
    hide CodeEffects, ClickEffects;
    var flags := f;
    var effects: Effects := [];
    if o.rootDone {
      return Iteration(Failed(RootDone), flags, effects, 0);
    }
    if !o.alive && o.rebind.Broken? {
      return Iteration(Failed(RebindFailed), flags, effects, 0);
    }
    var cur := o.url;
    if IsAuthenticatedUrl(cur) {
      return Iteration(Finished(cur), flags, effects, 0);
    }
    if IsGovBrUrl(cur) {
      effects := [Restarted(o.navigation)];
      if o.navigation.NavigationLost? {
        return Iteration(Again, flags, effects, 0);
      }
      if o.navigation.NavigationError? {
        return Iteration(Failed(NavigationFailed), flags, effects, 0);
      }
      return Pause(o, 3 * SECOND, flags, effects);
    }
    if ShouldAttemptTotpEnroll(cur, flags.totpEnrolled) {
      var e := EnrollTotpRobust(cfg.mac, cur, flags.totpEnrolled, o.enrollStart, o.turns);
      flags := flags.(totpEnrolled := e.enrolled);
      effects := [EnrollEntered] + e.effects;
      if e.result.EnrollCut? {
        return Iteration(CutShort, flags, effects, 0);
      }
      if e.result.err.Some? {
        return Iteration(Failed(e.result.err.value), flags, effects, 0);
      }
      if e.result.ok {
        return Pause(o, 5 * SECOND, flags, effects);
      }
      EnrollReturns(cfg.mac, cur, o.enrollStart + ENROLL_WINDOW, o.turns);
    }
    var h := MaybeHandle2Fa(cfg, cur, flags.certClickedAt, flags.twoFaSubmitted, o.prompt);
    flags := flags.(twoFaSubmitted := h.submitted);
    effects := effects + CodeEffects(h, o.prompt);
    if h.err.Some? {
      return Iteration(Failed(h.err.value), flags, effects, 0);
    }
    if h.handled {
      return Pause(o, 5 * SECOND, flags, effects);
    }
    var click := RetryCert(flags.certRetries, o);
    effects := effects + ClickEffects(click);
    if click == Some(Clicked) {
      flags := flags.(certRetries := flags.certRetries + 1, certClickedAt := o.clickTime);
      return Pause(o, 5 * SECOND, flags, effects);
    }
    return Pause(o, 1 * SECOND, flags, effects);
  }

  /** awaitAuthenticated */
  method AwaitAuthenticated(cfg: Config, clickedAt: Time, start: Time, script: seq<Observation>) returns (r: Report)
    ensures r == Poll(cfg, start + 180 * SECOND, Flags(0, false, false, clickedAt), script)
    ensures RunEndsSo(cfg, start + 180 * SECOND, Flags(0, false, false, clickedAt), script, r)
  {
    hide RunEndsSo, EndsSo, LeavesFlags, DoesSo, Orderly;
    RunComesTo(cfg, start + 180 * SECOND, Flags(0, false, false, clickedAt), script);
    var deadline := start + POLL_WINDOW;
    var flags := InitialFlags(clickedAt);
    var effects: Effects := [];
    var i := 0;
    while i < |script| && script[i].at < deadline
      invariant 0 <= i <= |script|
      invariant var rest := Poll(cfg, deadline, flags, script[i..]);
                Poll(cfg, deadline, InitialFlags(clickedAt), script) == rest.(effects := effects + rest.effects)
    {
      var it := IterateStep(cfg, flags, script[i]);
      flags := it.flags;
      ghost var before := effects;
      effects := effects + it.effects;
      assert script[i..][1..] == script[i + 1..];
      if !it.verdict.Again? {
        return Report(it.verdict, flags, effects);
      }
      ghost var rest := Poll(cfg, deadline, flags, script[i + 1..]);
      assert before + (it.effects + rest.effects) == effects + rest.effects;
      i := i + 1;
    }
    assert effects + [] == effects;
    if i == |script| {
      return Report(CutShort, flags, effects);
    }
    return Report(Failed(TimedOut), flags, effects);
  }
}
