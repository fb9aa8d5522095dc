/** What one pass of the polling loop and a whole run come to, told from what the page, the browser
    and the clock show: when they fail and with which error, when they succeed, what they do to the
    page and to the flags. Each is said without the functions that compute it. */
module LoginOutcome {
  import opened Wrappers
  import opened Clock
  import opened Text
  import opened Totp
  import opened PageUrl
  import opened LoginPolling

  // The address.

  /** The name is somewhere in the tracked address. */
  ghost predicate Shows(o: Observation, name: string) {
    exists a, b :: o.url == a + name + b
  }

  ghost predicate ShowsPortal(o: Observation) {
    && (Shows(o, "www.jus.br") || Shows(o, "portaldeservicos.pdpj.jus.br"))
    && !Shows(o, "sso.cloud.pje.jus.br")
  }

  lemma AddressShows(o: Observation)
    ensures IsAuthenticatedUrl(o.url) <==> ShowsPortal(o)
    ensures IsGovBrUrl(o.url) <==> Shows(o, "sso.acesso.gov.br")
    ensures IsConfigureTotpUrl(o.url) <==> Shows(o, "CONFIGURE_TOTP")
    ensures Contains(o.url, CONFIGURE_TOTP_MARKER) <==> Shows(o, "CONFIGURE_TOTP")
    ensures Contains(o.url, SSO_HOST) <==> Shows(o, "sso.cloud.pje.jus.br")
  {
    AuthenticatedMeans(o.url);
    ContainsMeans(o.url, "sso.acesso.gov.br");
    ContainsMeans(o.url, CONFIGURE_TOTP_MARKER);
    ContainsMeans(o.url, SSO_HOST);
    hide Contains, IsAuthenticatedUrl;
  }

  // The stages of a pass: exactly one of them is reached, or the pass ends before.

  /** The login is not over, and there is a live target or at least a browser. */
  ghost predicate Attached(o: Observation) {
    !o.rootDone && (o.alive || !o.rebind.Broken?)
  }

  ghost predicate OnPortal(o: Observation) {
    Attached(o) && ShowsPortal(o)
  }

  ghost predicate OnGovBr(o: Observation) {
    Attached(o) && !ShowsPortal(o) && Shows(o, "sso.acesso.gov.br")
  }

  ghost predicate Enrols(f: Flags, o: Observation) {
    && Attached(o) && !ShowsPortal(o) && !Shows(o, "sso.acesso.gov.br")
    && Shows(o, "CONFIGURE_TOTP") && !f.totpEnrolled
  }

  ghost predicate LooksForPrompt(f: Flags, o: Observation) {
    && Attached(o) && !ShowsPortal(o) && !Shows(o, "sso.acesso.gov.br")
    && (Shows(o, "CONFIGURE_TOTP") ==> f.totpEnrolled)
  }

  // The enrolment.

  /** The turn finds the form and reads a secret. */
  ghost predicate Reads(t: EnrollTurn) {
    !t.rebind.Broken? && t.ready && t.reading.Read?
  }

  /** The turn runs the form's script. */
  ghost predicate RunsScript(t: EnrollTurn) {
    Reads(t) && ChooseTotpSecret(t.reading.span, t.reading.hidden).Some?
  }

  /** The turn neither confirms the form nor finds an error in it. */
  ghost predicate Inconclusive(t: EnrollTurn) {
    && !t.rebind.Broken?
    && (!t.ready || t.reading.ReadLost? || (RunsScript(t) && (t.submission.SendLost? || t.submission.NoForm?)))
  }

  ghost predicate TurnGoesOn(t: EnrollTurn) {
    Inconclusive(t) && !t.rebindAfter.Broken? && !t.rootDone
  }

  ghost predicate TurnFails(t: EnrollTurn, e: Error) {
    || (e == RebindFailed && (t.rebind.Broken? || (Inconclusive(t) && t.rebindAfter.Broken?)))
    || (e == SecretUnreadable && !t.rebind.Broken? && t.ready && t.reading.ReadError?)
    || (e == NoUsableSecret && Reads(t) && !RunsScript(t))
    || (e == SubmitFailed && RunsScript(t) && t.submission.SendError?)
    || (e == RootDone && Inconclusive(t) && !t.rebindAfter.Broken? && t.rootDone)
  }

  /** What can happen at a turn. */
  datatype TurnEvent =
    | Confirmed | FailsWith(e: Error) | Ran(secret: string, code: string, answer: Submission) | Tried | Paused

  ghost predicate Happens(mac: Mac, end: Time, t: EnrollTurn, what: TurnEvent) {
    match what
    case Confirmed => t.at < end && RunsScript(t) && t.submission.Sent?
    case FailsWith(e) => if t.at >= end then e == EnrollWindowOver else TurnFails(t, e)
    case Ran(secret, code, answer) =>
      && t.at < end && RunsScript(t) && t.submission == answer
      && ChooseTotpSecret(t.reading.span, t.reading.hidden) == Some(secret) && CodeAt(mac, secret, t.unix) == Ok(code)
    case Tried => t.at < end
    case Paused => t.at < end && TurnGoesOn(t)
  }

  /** All turns before turn `k` went on. */
  ghost predicate ReachesTurn(end: Time, turns: seq<EnrollTurn>, k: int) {
    0 <= k <= |turns| && forall j | 0 <= j < k :: turns[j].at < end && TurnGoesOn(turns[j])
  }

  ghost predicate AtSomeTurn(mac: Mac, end: Time, turns: seq<EnrollTurn>, what: TurnEvent) {
    exists k :: 0 <= k < |turns| && ReachesTurn(end, turns, k) && Happens(mac, end, turns[k], what)
  }

  lemma ReachShift(end: Time, turns: seq<EnrollTurn>, k: nat)
    requires turns != []
    ensures ReachesTurn(end, turns, 0)
    ensures ReachesTurn(end, turns, k + 1) <==>
              turns[0].at < end && TurnGoesOn(turns[0]) && ReachesTurn(end, turns[1..], k)
  {
    hide TurnGoesOn;
    assert forall j | 0 <= j < |turns| - 1 :: turns[1..][j] == turns[j + 1];
    if ReachesTurn(end, turns, k + 1) {
      forall j | 0 <= j < k ensures turns[1..][j].at < end && TurnGoesOn(turns[1..][j]) {
        assert turns[j + 1].at < end && TurnGoesOn(turns[j + 1]);
      }
    }
    if turns[0].at < end && TurnGoesOn(turns[0]) && ReachesTurn(end, turns[1..], k) {
      forall j | 0 <= j < k + 1 ensures turns[j].at < end && TurnGoesOn(turns[j]) {
        if j > 0 { assert turns[1..][j - 1] == turns[j]; }
      }
    }
  }

  lemma TurnShift(mac: Mac, end: Time, turns: seq<EnrollTurn>, what: TurnEvent)
    requires turns != []
    ensures AtSomeTurn(mac, end, turns, what) <==>
              || Happens(mac, end, turns[0], what)
              || (turns[0].at < end && TurnGoesOn(turns[0]) && AtSomeTurn(mac, end, turns[1..], what))
  {
    hide ReachesTurn, Happens, TurnGoesOn;
    ReachShift(end, turns, 0);
    var rest := turns[1..];
    if k :| 0 <= k < |turns| && ReachesTurn(end, turns, k) && Happens(mac, end, turns[k], what) {
      if k > 0 {
        ReachShift(end, turns, k - 1);
        assert rest[k - 1] == turns[k];
      }
    }
    if k :| 0 <= k < |rest| && ReachesTurn(end, rest, k) && Happens(mac, end, rest[k], what) {
      ReachShift(end, turns, k);
      assert rest[k] == turns[k + 1];
    }
  }

  /** One attempt, told from its turn. */
  lemma AttemptMeans(mac: Mac, cur: string, t: EnrollTurn)
    requires Contains(cur, CONFIGURE_TOTP_MARKER)
    ensures var a := MaybeEnroll(mac, cur, false, t);
            && (a.ok <==> RunsScript(t) && t.submission.Sent?)
            && (a.ok ==> a.err.None?)
            && (!a.ok && a.err.None? <==> Inconclusive(t))
            && (forall e :: a.err == Some(e) <==> TurnFails(t, e) && !Inconclusive(t))
            && (forall s, c :: a.ran == Some((s, c)) <==>
                  RunsScript(t) && ChooseTotpSecret(t.reading.span, t.reading.hidden) == Some(s)
                  && CodeAt(mac, s, t.unix) == Ok(c))
  {
    EnrolledSecretWorks(mac, cur, false, t);
    hide Contains, CodeAt, ChooseTotpSecret;
  }

  /** How the enrolment ends, told from its turns. */
  ghost predicate EnrolmentEnds(mac: Mac, end: Time, turns: seq<EnrollTurn>, run: EnrollRun) {
    && (run.result == Returned(true, None) <==> AtSomeTurn(mac, end, turns, Confirmed))
    && (forall e :: run.result == Returned(false, Some(e)) <==> AtSomeTurn(mac, end, turns, FailsWith(e)))
    && (run.result.EnrollCut? <==> ReachesTurn(end, turns, |turns|))
    && (run.enrolled <==> AtSomeTurn(mac, end, turns, Confirmed))
  }

  /** What the enrolment does, told from its turns. */
  ghost predicate EnrolmentDoes(mac: Mac, end: Time, turns: seq<EnrollTurn>, es: Effects) {
    && (forall s, c, a :: FormRan(s, c, a) in es <==> AtSomeTurn(mac, end, turns, Ran(s, c, a)))
    && (EnrollTried in es <==> AtSomeTurn(mac, end, turns, Tried))
    && (EnrollPaused in es <==> AtSomeTurn(mac, end, turns, Paused))
  }

  lemma NoTurnsMeet(mac: Mac, end: Time)
    ensures EnrolmentEnds(mac, end, [], EnrollRun(EnrollCut, false, [])) && EnrolmentDoes(mac, end, [], [])
  {}

  lemma TurnShifts(mac: Mac, end: Time, turns: seq<EnrollTurn>)
    requires turns != []
    ensures ReachesTurn(end, turns, |turns|) <==>
              turns[0].at < end && TurnGoesOn(turns[0]) && ReachesTurn(end, turns[1..], |turns| - 1)
    ensures forall what :: AtSomeTurn(mac, end, turns, what) <==>
              || Happens(mac, end, turns[0], what)
              || (turns[0].at < end && TurnGoesOn(turns[0]) && AtSomeTurn(mac, end, turns[1..], what))
  {
    hide AtSomeTurn, ReachesTurn, Happens, TurnGoesOn;
    ReachShift(end, turns, |turns| - 1);
    forall what ensures AtSomeTurn(mac, end, turns, what) <==>
                          || Happens(mac, end, turns[0], what)
                          || (turns[0].at < end && TurnGoesOn(turns[0]) && AtSomeTurn(mac, end, turns[1..], what)) {
      TurnShift(mac, end, turns, what);
    }
  }

  lemma {:induction false} EnrolmentEndsSo(mac: Mac, cur: string, end: Time, turns: seq<EnrollTurn>)
    requires Contains(cur, CONFIGURE_TOTP_MARKER)
    ensures EnrolmentEnds(mac, end, turns, EnrollLoop(mac, cur, false, end, turns))
    decreases |turns|
  {
    hide Contains, MaybeEnroll, CodeAt, ChooseTotpSecret, AtSomeTurn, ReachesTurn;
    NoTurnsMeet(mac, end);
    if turns != [] {
      TurnShifts(mac, end, turns);
      AttemptMeans(mac, cur, turns[0]);
      EnrolmentEndsSo(mac, cur, end, turns[1..]);
    }
  }

  lemma TurnDoes(a: Attempt, t: EnrollTurn, rest: Effects, x: Effect)
    ensures x in [EnrollTried] + FormEffects(a, t) <==>
              x == EnrollTried || (a.ran.Some? && x == FormRan(a.ran.value.0, a.ran.value.1, t.submission))
    ensures x in [EnrollTried] + FormEffects(a, t) + [EnrollPaused] + rest <==>
              x == EnrollTried || x == EnrollPaused || x in rest
              || (a.ran.Some? && x == FormRan(a.ran.value.0, a.ran.value.1, t.submission))
  {}

  lemma {:induction false} EnrolmentDoesSo(mac: Mac, cur: string, end: Time, turns: seq<EnrollTurn>)
    requires Contains(cur, CONFIGURE_TOTP_MARKER)
    ensures EnrolmentDoes(mac, end, turns, EnrollLoop(mac, cur, false, end, turns).effects)
    decreases |turns|
  {
    hide Contains, MaybeEnroll, CodeAt, ChooseTotpSecret, AtSomeTurn, ReachesTurn, FormEffects, RunsScript;
    hide Inconclusive, TurnFails;
    NoTurnsMeet(mac, end);
    if turns != [] {
      TurnShifts(mac, end, turns);
      AttemptMeans(mac, cur, turns[0]);
      EnrolmentDoesSo(mac, cur, end, turns[1..]);
      var a := MaybeEnroll(mac, cur, false, turns[0]);
      var rest := EnrollLoop(mac, cur, a.enrolled, end, turns[1..]).effects;
      forall x { TurnDoes(a, turns[0], rest, x); }
    }
  }

  /** An event at a turn of the enrolment of this pass, which has 60 seconds. */
  ghost predicate DuringEnrolment(cfg: Config, f: Flags, o: Observation, what: TurnEvent) {
    Enrols(f, o) && AtSomeTurn(cfg.mac, o.enrollStart + 60 * SECOND, o.turns, what)
  }

  /** The turns of the script end before the enrolment does. */
  ghost predicate EnrolmentIsCut(f: Flags, o: Observation) {
    Enrols(f, o) && ReachesTurn(o.enrollStart + 60 * SECOND, o.turns, |o.turns|)
  }

  // The prompt and the certificate link.

  ghost predicate FindsPrompt(f: Flags, o: Observation) {
    LooksForPrompt(f, o) && !f.twoFaSubmitted && o.prompt.evaluated && o.prompt.present
  }

  /** A configured secret, and a prompt that is visible or has stood for more than a minute on the
      SSO host. */
  ghost predicate CallsForCode(cfg: Config, f: Flags, o: Observation) {
    && FindsPrompt(f, o) && cfg.totpSecret != ""
    && (o.prompt.visible || (Shows(o, "sso.cloud.pje.jus.br") && o.prompt.now > f.certClickedAt + 60 * SECOND))
  }

  /** The script runs with this code, the one of the secret at that time. */
  ghost predicate TypesCode(cfg: Config, f: Flags, o: Observation, code: string) {
    CallsForCode(cfg, f, o) && CodeAt(cfg.mac, cfg.totpSecret, o.prompt.unix) == Ok(code)
  }

  ghost predicate ConfirmsCode(cfg: Config, f: Flags, o: Observation) {
    o.prompt.submission.Sent? && exists code :: TypesCode(cfg, f, o, code)
  }

  ghost predicate PromptFails(cfg: Config, f: Flags, o: Observation, e: Error) {
    || (e == SecretMissing && FindsPrompt(f, o) && cfg.totpSecret == "")
    || (e.CodeFailed? && CallsForCode(cfg, f, o) && CodeAt(cfg.mac, cfg.totpSecret, o.prompt.unix) == Err(e.e))
    || (e == CannotSubmit && o.prompt.submission.NoForm? && exists code :: TypesCode(cfg, f, o, code))
    || (e == SubmitFailed && o.prompt.submission.SendError? && exists code :: TypesCode(cfg, f, o, code))
  }

  /** The pass comes as far as the certificate link. */
  ghost predicate LooksForLink(cfg: Config, f: Flags, o: Observation) {
    LooksForPrompt(f, o) && !ConfirmsCode(cfg, f, o) && !exists e :: PromptFails(cfg, f, o, e)
  }

  ghost predicate ConfirmsClick(cfg: Config, f: Flags, o: Observation) {
    LooksForLink(cfg, f, o) && f.certRetries < 5 && o.certEvaluated && o.certClicked
  }

  // What a pass comes to.

  /** The pass ends with a pause of `d`, unless that is cut short. */
  ghost predicate Pauses(cfg: Config, f: Flags, o: Observation, d: Time) {
    || (d == 3 * SECOND && OnGovBr(o) && o.navigation.Navigated?)
    || (d == 5 * SECOND && DuringEnrolment(cfg, f, o, Confirmed))
    || (d == 5 * SECOND && ConfirmsCode(cfg, f, o))
    || (d == 5 * SECOND && ConfirmsClick(cfg, f, o))
    || (d == 1 * SECOND && LooksForLink(cfg, f, o) && !ConfirmsClick(cfg, f, o))
  }

  /** The pass fails with this error. */
  ghost predicate Fails(cfg: Config, f: Flags, o: Observation, e: Error) {
    || (e == RootDone && o.rootDone)
    || (e == RebindFailed && !o.rootDone && !o.alive && o.rebind.Broken?)
    || (e == NavigationFailed && OnGovBr(o) && o.navigation.NavigationError?)
    || DuringEnrolment(cfg, f, o, FailsWith(e))
    || PromptFails(cfg, f, o, e)
    || (e == RootDone && o.rootDoneInSleep && exists d :: Pauses(cfg, f, o, d))
  }

  /** The pass goes on to the next one after a pause of `d`. */
  ghost predicate GoesOnAfter(cfg: Config, f: Flags, o: Observation, d: Time) {
    || (d == 0 && OnGovBr(o) && o.navigation.NavigationLost?)
    || (!o.rootDoneInSleep && Pauses(cfg, f, o, d))
  }

  ghost predicate EndsSo(cfg: Config, f: Flags, o: Observation, it: Iteration) {
    && (forall e :: it.verdict == Failed(e) <==> Fails(cfg, f, o, e))
    && (forall u :: it.verdict == Finished(u) <==> OnPortal(o) && u == o.url)
    && (it.verdict.CutShort? <==> EnrolmentIsCut(f, o))
    && (forall d :: it.verdict.Again? && it.slept == d <==> GoesOnAfter(cfg, f, o, d))
  }

  /** The pass has this effect. */
  ghost predicate Does(cfg: Config, f: Flags, o: Observation, e: Effect) {
    match e
    case Restarted(outcome) => OnGovBr(o) && outcome == o.navigation
    case EnrollEntered => Enrols(f, o)
    case EnrollTried => DuringEnrolment(cfg, f, o, Tried)
    case FormRan(secret, code, answer) => DuringEnrolment(cfg, f, o, Ran(secret, code, answer))
    case EnrollPaused => DuringEnrolment(cfg, f, o, Paused)
    case CodeRan(code, answer) => TypesCode(cfg, f, o, code) && answer == o.prompt.submission
    case ClickRan(answer) =>
      && LooksForLink(cfg, f, o) && f.certRetries < 5
      && answer == if !o.certEvaluated then ClickLost else if o.certClicked then Clicked else NotClicked
    case Slept => !o.rootDoneInSleep && exists d :: Pauses(cfg, f, o, d)
  }

  /** The flags after the pass. */
  ghost predicate LeavesFlags(cfg: Config, f: Flags, o: Observation, g: Flags) {
    && (g.twoFaSubmitted <==> f.twoFaSubmitted || ConfirmsCode(cfg, f, o))
    && (g.totpEnrolled <==> f.totpEnrolled || DuringEnrolment(cfg, f, o, Confirmed))
    && g.certRetries == f.certRetries + One(ConfirmsClick(cfg, f, o))
    && g.certClickedAt == if ConfirmsClick(cfg, f, o) then o.clickTime else f.certClickedAt
  }

  // The pass computes just that.

  ghost predicate DoesSo(cfg: Config, f: Flags, o: Observation, es: Effects) {
    forall e :: e in es <==> Does(cfg, f, o, e)
  }

  lemma EarlyEnds(cfg: Config, f: Flags, o: Observation)
    requires !Enrols(f, o) && !LooksForPrompt(f, o)
    ensures EndsSo(cfg, f, o, Iterate(cfg, f, o)) && LeavesFlags(cfg, f, o, Iterate(cfg, f, o).flags)
  {
    hide ShowsPortal, Shows, IsAuthenticatedUrl, IsGovBrUrl, IsConfigureTotpUrl, EnrollFirst, PromptAndCert;
    hide AtSomeTurn, ReachesTurn, CodeAt;
    AddressShows(o);
    assert forall d :: Pauses(cfg, f, o, d) ==> d == 3 * SECOND;
    assert Pauses(cfg, f, o, 3 * SECOND) <==> OnGovBr(o) && o.navigation.Navigated?;
  }

  lemma EarlyDoes(cfg: Config, f: Flags, o: Observation)
    requires !Enrols(f, o) && !LooksForPrompt(f, o)
    ensures DoesSo(cfg, f, o, Iterate(cfg, f, o).effects)
  {
    hide ShowsPortal, Shows, IsAuthenticatedUrl, IsGovBrUrl, IsConfigureTotpUrl, EnrollFirst, PromptAndCert;
    hide AtSomeTurn, ReachesTurn, CodeAt;
    AddressShows(o);
    assert forall d :: Pauses(cfg, f, o, d) ==> d == 3 * SECOND;
    assert Pauses(cfg, f, o, 3 * SECOND) <==> OnGovBr(o) && o.navigation.Navigated?;
  }

  /** A pass that enrols is told by the enrolment alone. */
  lemma EnrolStage(cfg: Config, f: Flags, o: Observation)
    requires Enrols(f, o)
    ensures Iterate(cfg, f, o) == EnrollFirst(cfg, f, o) && !f.totpEnrolled
    ensures var run := EnrollLoop(cfg.mac, o.url, false, o.enrollStart + 60 * SECOND, o.turns);
            && EnrolmentEnds(cfg.mac, o.enrollStart + 60 * SECOND, o.turns, run)
            && EnrolmentDoes(cfg.mac, o.enrollStart + 60 * SECOND, o.turns, run.effects)
            && (run.result.Returned? ==> (run.result.ok <==> run.result.err.None?))
  {
    hide ShowsPortal, Shows, IsAuthenticatedUrl, IsGovBrUrl, Contains, EnrollFirst, PromptAndCert, EnrollLoop;
    AddressShows(o);
    EnrolmentEndsSo(cfg.mac, o.url, o.enrollStart + 60 * SECOND, o.turns);
    EnrolmentDoesSo(cfg.mac, o.url, o.enrollStart + 60 * SECOND, o.turns);
    EnrollReturns(cfg.mac, o.url, o.enrollStart + 60 * SECOND, o.turns);
  }

  /** What the predicates above come to in a pass that enrols. */
  lemma EnrolView(cfg: Config, f: Flags, o: Observation)
    requires Enrols(f, o)
    ensures !OnPortal(o) && !OnGovBr(o) && !ConfirmsCode(cfg, f, o) && !ConfirmsClick(cfg, f, o)
    ensures var confirmed := DuringEnrolment(cfg, f, o, Confirmed);
            && (forall d :: Pauses(cfg, f, o, d) <==> d == 5 * SECOND && confirmed)
            && (forall d :: GoesOnAfter(cfg, f, o, d) <==> d == 5 * SECOND && confirmed && !o.rootDoneInSleep)
            && (forall e :: Fails(cfg, f, o, e) <==>
                  DuringEnrolment(cfg, f, o, FailsWith(e)) || (e == RootDone && o.rootDoneInSleep && confirmed))
  {
    hide ShowsPortal, Shows, DuringEnrolment, CodeAt;
    assert Pauses(cfg, f, o, 5 * SECOND) <==> DuringEnrolment(cfg, f, o, Confirmed);
  }

  lemma EnrolVerdict(cfg: Config, f: Flags, o: Observation)
    requires !f.totpEnrolled
    ensures var run := EnrollLoop(cfg.mac, o.url, false, o.enrollStart + 60 * SECOND, o.turns);
            var it := EnrollFirst(cfg, f, o);
            && it.effects == [EnrollEntered] + run.effects + (if it.verdict.Again? then [Slept] else [])
            && it.flags == f.(totpEnrolled := run.enrolled)
            && it.slept == (if it.verdict.Again? then 5 * SECOND else 0)
            && it.verdict == match run.result
                             case EnrollCut => CutShort
                             case Returned(ok, err) =>
                               if err.Some? then Failed(err.value)
                               else if o.rootDoneInSleep then Failed(RootDone) else Again
  {
    hide PromptAndCert, EnrollLoop, Times;
    EnrollReturns(cfg.mac, o.url, o.enrollStart + 60 * SECOND, o.turns);
  }

  lemma EnrolEnds(cfg: Config, f: Flags, o: Observation)
    requires Enrols(f, o)
    ensures EndsSo(cfg, f, o, Iterate(cfg, f, o)) && LeavesFlags(cfg, f, o, Iterate(cfg, f, o).flags)
  {
    hide Enrols, Iterate, EnrollFirst, EnrollLoop, AtSomeTurn, ReachesTurn, EnrolmentDoes;
    hide OnPortal, OnGovBr, ConfirmsCode, ConfirmsClick, Pauses, GoesOnAfter, Fails;
    EnrolStage(cfg, f, o);
    EnrolVerdict(cfg, f, o);
    EnrolView(cfg, f, o);
  }

  lemma OnlyTurnEffects(mac: Mac, cur: string, end: Time, turns: seq<EnrollTurn>, e: Effect)
    requires e in EnrollLoop(mac, cur, false, end, turns).effects
    ensures e.FormRan? || e.EnrollTried? || e.EnrollPaused?
  {
    var es := EnrollLoop(mac, cur, false, end, turns).effects;
    EnrollReturns(mac, cur, end, turns);
    NotAmong(es, e);
    TimesAndMembers(es, Sleeps);
    TimesAndMembers(es, Enters);
    assert !Sleeps(e) && !Enters(e);
  }

  lemma EnrolDoes(cfg: Config, f: Flags, o: Observation)
    requires Enrols(f, o)
    ensures DoesSo(cfg, f, o, Iterate(cfg, f, o).effects)
  {
    hide Enrols, Iterate, EnrollFirst, EnrollLoop, AtSomeTurn, ReachesTurn;
    hide OnPortal, OnGovBr, ConfirmsCode, ConfirmsClick, Pauses, GoesOnAfter, Fails, TypesCode, LooksForLink;
    EnrolStage(cfg, f, o);
    EnrolVerdict(cfg, f, o);
    EnrolView(cfg, f, o);
    EnrolDoesNoMore(cfg, f, o);
    var end := o.enrollStart + 60 * SECOND;
    forall e | e in EnrollLoop(cfg.mac, o.url, false, end, o.turns).effects
      ensures e.FormRan? || e.EnrollTried? || e.EnrollPaused? {
      OnlyTurnEffects(cfg.mac, o.url, end, o.turns, e);
    }
    assert Pauses(cfg, f, o, 5 * SECOND) <==> DuringEnrolment(cfg, f, o, Confirmed);
    var es := Iterate(cfg, f, o).effects;
    assert Slept in es <==> Does(cfg, f, o, Slept);
    assert forall n :: Restarted(n) !in es && forall a :: ClickRan(a) !in es;
  }

  lemma EnrolDoesNoMore(cfg: Config, f: Flags, o: Observation)
    requires Enrols(f, o)
    ensures !LooksForLink(cfg, f, o) && forall code :: !TypesCode(cfg, f, o, code)
  {
    hide ShowsPortal, Shows, CodeAt;
  }

  /** What the handling of the prompt comes to. */
  lemma PromptStage(cfg: Config, f: Flags, o: Observation)
    requires LooksForPrompt(f, o)
    ensures Iterate(cfg, f, o) == PromptAndCert(cfg, f, o)
    ensures var h := MaybeHandle2Fa(cfg, o.url, f.certClickedAt, f.twoFaSubmitted, o.prompt);
            && (h.handled <==> ConfirmsCode(cfg, f, o))
            && (forall e :: h.err == Some(e) <==> PromptFails(cfg, f, o, e))
            && (forall c :: h.ran == Some(c) <==> TypesCode(cfg, f, o, c))
            && (h.submitted <==> f.twoFaSubmitted || ConfirmsCode(cfg, f, o))
  {
    hide ShowsPortal, Shows, IsAuthenticatedUrl, IsGovBrUrl, IsConfigureTotpUrl, Contains, PromptAndCert, EnrollFirst;
    hide CodeAt;
    AddressShows(o);
    var code := CodeAt(cfg.mac, cfg.totpSecret, o.prompt.unix);
    assert code.Ok? ==> (TypesCode(cfg, f, o, code.value) <==> CallsForCode(cfg, f, o));
  }

  /** What the predicates above come to in a pass that looks for the prompt. */
  lemma PromptView(cfg: Config, f: Flags, o: Observation)
    requires LooksForPrompt(f, o)
    ensures !OnPortal(o) && !OnGovBr(o) && !Enrols(f, o) && forall what :: !DuringEnrolment(cfg, f, o, what)
    ensures var pauses := if ConfirmsCode(cfg, f, o) || ConfirmsClick(cfg, f, o) then 5 * SECOND else 1 * SECOND;
            var quiet := ConfirmsCode(cfg, f, o) || LooksForLink(cfg, f, o);
            && (forall d :: Pauses(cfg, f, o, d) <==> quiet && d == pauses)
            && (forall d :: GoesOnAfter(cfg, f, o, d) <==> quiet && d == pauses && !o.rootDoneInSleep)
            && (forall e :: Fails(cfg, f, o, e) <==>
                  PromptFails(cfg, f, o, e) || (e == RootDone && o.rootDoneInSleep && quiet))
  {
    hide ShowsPortal, Shows, AtSomeTurn, ConfirmsCode, PromptFails;
    assert Pauses(cfg, f, o, 5 * SECOND) <==> ConfirmsCode(cfg, f, o) || ConfirmsClick(cfg, f, o);
    assert Pauses(cfg, f, o, 1 * SECOND) <==> LooksForLink(cfg, f, o) && !ConfirmsClick(cfg, f, o);
  }

  lemma PromptVerdict(cfg: Config, f: Flags, o: Observation)
    ensures var h := MaybeHandle2Fa(cfg, o.url, f.certClickedAt, f.twoFaSubmitted, o.prompt);
            var it := PromptAndCert(cfg, f, o);
            var looks := h.err.None? && !h.handled && f.certRetries < 5;
            var clicked := looks && AnswerOf(o).Clicked?;
            && it.flags == Flags(f.certRetries + One(clicked), h.submitted, f.totpEnrolled,
                                 if clicked then o.clickTime else f.certClickedAt)
            && it.effects == CodeEffects(h, o.prompt) + (if looks then [ClickRan(AnswerOf(o))] else [])
                             + (if it.verdict.Again? then [Slept] else [])
            && it.verdict == (if h.err.Some? then Failed(h.err.value)
                              else if o.rootDoneInSleep then Failed(RootDone) else Again)
            && it.slept == if !it.verdict.Again? then 0 else if h.handled || clicked then 5 * SECOND else 1 * SECOND
  {
    hide MaybeHandle2Fa, CodeEffects, AnswerOf;
  }

  lemma PromptEnds(cfg: Config, f: Flags, o: Observation)
    requires LooksForPrompt(f, o)
    ensures EndsSo(cfg, f, o, Iterate(cfg, f, o)) && LeavesFlags(cfg, f, o, Iterate(cfg, f, o).flags)
  {
    hide LooksForPrompt, Iterate, PromptAndCert, MaybeHandle2Fa, CodeEffects, ReachesTurn, DuringEnrolment;
    hide OnPortal, OnGovBr, Enrols, ConfirmsCode, PromptFails, TypesCode, Pauses, GoesOnAfter, Fails;
    PromptStage(cfg, f, o);
    PromptVerdict(cfg, f, o);
    PromptView(cfg, f, o);
  }

  lemma PromptDoes(cfg: Config, f: Flags, o: Observation)
    requires LooksForPrompt(f, o)
    ensures DoesSo(cfg, f, o, Iterate(cfg, f, o).effects)
  {
    hide LooksForPrompt, Iterate, PromptAndCert, MaybeHandle2Fa, DuringEnrolment, CodeEffects, AnswerOf;
    hide OnPortal, OnGovBr, Enrols, ConfirmsCode, PromptFails, TypesCode, Pauses, GoesOnAfter, Fails;
    PromptStage(cfg, f, o);
    PromptVerdict(cfg, f, o);
    PromptView(cfg, f, o);
    var h := MaybeHandle2Fa(cfg, o.url, f.certClickedAt, f.twoFaSubmitted, o.prompt);
    var quiet := ConfirmsCode(cfg, f, o) || LooksForLink(cfg, f, o);
    var d := if ConfirmsCode(cfg, f, o) || ConfirmsClick(cfg, f, o) then 5 * SECOND else 1 * SECOND;
    assert Pauses(cfg, f, o, d) <==> quiet;
    PromptEffects(h, o, f.certRetries, h.err.None? && !h.handled, h.err.None? && !o.rootDoneInSleep);
    LinkEffects(cfg, f, o);
    assert quiet <==> h.err.None?;
    assert LooksForLink(cfg, f, o) <==> h.err.None? && !h.handled;
    var es := Iterate(cfg, f, o).effects;
    assert es == CodeEffects(h, o.prompt)
                 + (if h.err.None? && !h.handled && f.certRetries < 5 then [ClickRan(AnswerOf(o))] else [])
                 + (if h.err.None? && !o.rootDoneInSleep then [Slept] else []);
    assert forall c, a :: CodeRan(c, a) in es <==> Does(cfg, f, o, CodeRan(c, a));
    assert Slept in es <==> Does(cfg, f, o, Slept);
    assert forall a :: ClickRan(a) in es <==> Does(cfg, f, o, ClickRan(a));
    forall e ensures e in es <==> Does(cfg, f, o, e) {
      match e
      case CodeRan(c, a) =>
      case ClickRan(a) =>
      case Slept =>
      case _ =>
        PromptDoesNoMore(cfg, f, o, e);
        if e in es {
          PromptMembers(cfg, f, o, e);
        }
    }
  }

  /** The effects of such a pass, one by one. */
  lemma PromptEffects(h: Handling, o: Observation, retries: nat, looks: bool, slept: bool)
    ensures var es := CodeEffects(h, o.prompt) + (if looks && retries < 5 then [ClickRan(AnswerOf(o))] else [])
                      + (if slept then [Slept] else []);
            && (forall c, a :: CodeRan(c, a) in es <==> h.ran == Some(c) && a == o.prompt.submission)
            && (forall a :: ClickRan(a) in es <==> looks && retries < 5 && a == AnswerOf(o))
            && (Slept in es <==> slept)
            && (forall e :: e in es ==> e.CodeRan? || e.ClickRan? || e.Slept?)
  {
    hide AnswerOf;
  }

  lemma PromptDoesNoMore(cfg: Config, f: Flags, o: Observation, e: Effect)
    requires LooksForPrompt(f, o) && !e.CodeRan? && !e.ClickRan? && !e.Slept?
    ensures !Does(cfg, f, o, e)
  {
    hide ShowsPortal, Shows, AtSomeTurn;
  }

  lemma LinkEffects(cfg: Config, f: Flags, o: Observation)
    ensures forall a ::
              Does(cfg, f, o, ClickRan(a)) <==> LooksForLink(cfg, f, o) && f.certRetries < 5 && a == AnswerOf(o)
  {
    hide LooksForLink;
  }

  /** A pass of the loop ends, leaves the flags and acts on the page exactly as told above. */
  lemma PassMeans(cfg: Config, f: Flags, o: Observation)
    ensures EndsSo(cfg, f, o, Iterate(cfg, f, o))
    ensures LeavesFlags(cfg, f, o, Iterate(cfg, f, o).flags)
    ensures DoesSo(cfg, f, o, Iterate(cfg, f, o).effects)
  {
    hide EndsSo, LeavesFlags, DoesSo, Enrols, LooksForPrompt, Iterate;
    if Enrols(f, o) {
      EnrolEnds(cfg, f, o);
      EnrolDoes(cfg, f, o);
    } else if LooksForPrompt(f, o) {
      PromptEnds(cfg, f, o);
      PromptDoes(cfg, f, o);
    } else {
      EarlyEnds(cfg, f, o);
      EarlyDoes(cfg, f, o);
    }
  }

  // What a run comes to.

  ghost predicate GoesOn(cfg: Config, f: Flags, o: Observation) {
    exists d :: GoesOnAfter(cfg, f, o, d)
  }

  /** All passes before pass `i` began before the deadline and went on. */
  ghost predicate Reached(cfg: Config, deadline: Time, f: Flags, script: seq<Observation>, i: int) {
    && 0 <= i <= |script|
    && forall j | 0 <= j < i :: script[j].at < deadline && GoesOn(cfg, FlagsAt(cfg, f, script, j), script[j])
  }

  datatype RunEvent = EndsWith(e: Error) | Succeeds(url: string) | IsCut | HasEffect(effect: Effect)

  ghost predicate HappensIn(cfg: Config, deadline: Time, f: Flags, o: Observation, what: RunEvent) {
    match what
    case EndsWith(e) => if o.at >= deadline then e == TimedOut else Fails(cfg, f, o, e)
    case Succeeds(url) => o.at < deadline && OnPortal(o) && url == o.url
    case IsCut => o.at < deadline && EnrolmentIsCut(f, o)
    case HasEffect(effect) => o.at < deadline && Does(cfg, f, o, effect)
  }

  ghost predicate AtSomePass(cfg: Config, deadline: Time, f: Flags, script: seq<Observation>, what: RunEvent) {
    exists i :: 0 <= i < |script| && Reached(cfg, deadline, f, script, i)
                && HappensIn(cfg, deadline, FlagsAt(cfg, f, script, i), script[i], what)
  }

  ghost predicate RunEndsSo(cfg: Config, deadline: Time, f: Flags, script: seq<Observation>, r: Report) {
    && (forall e :: r.verdict == Failed(e) <==> AtSomePass(cfg, deadline, f, script, EndsWith(e)))
    && (forall u :: r.verdict == Finished(u) <==> AtSomePass(cfg, deadline, f, script, Succeeds(u)))
    && (r.verdict.CutShort? <==>
          Reached(cfg, deadline, f, script, |script|) || AtSomePass(cfg, deadline, f, script, IsCut))
    && (forall e :: e in r.effects <==> AtSomePass(cfg, deadline, f, script, HasEffect(e)))
  }

  /** The flags of each pass follow from those of the one before. */
  lemma {:induction false} FlagsFollow(cfg: Config, f: Flags, script: seq<Observation>, i: nat)
    requires i < |script|
    ensures FlagsAt(cfg, f, script, 0) == f
    ensures FlagsAt(cfg, f, script, i + 1) == Iterate(cfg, FlagsAt(cfg, f, script, i), script[i]).flags
    ensures LeavesFlags(cfg, FlagsAt(cfg, f, script, i), script[i], FlagsAt(cfg, f, script, i + 1))
    decreases i
  {
    hide Iterate, LeavesFlags;
    if i == 0 {
      PassMeans(cfg, f, script[0]);
      assert FlagsAt(cfg, Iterate(cfg, f, script[0]).flags, script[1..], 0) == Iterate(cfg, f, script[0]).flags;
    } else {
      FlagsFollow(cfg, Iterate(cfg, f, script[0]).flags, script[1..], i - 1);
    }
  }

  lemma PassReachShift(cfg: Config, deadline: Time, f: Flags, script: seq<Observation>, i: nat)
    requires script != []
    ensures Reached(cfg, deadline, f, script, 0)
    ensures Reached(cfg, deadline, f, script, i + 1) <==>
              && script[0].at < deadline && GoesOn(cfg, f, script[0])
              && Reached(cfg, deadline, Iterate(cfg, f, script[0]).flags, script[1..], i)
  {
    hide GoesOn, Iterate;
    var g, rest := Iterate(cfg, f, script[0]).flags, script[1..];
    if Reached(cfg, deadline, f, script, i + 1) {
      forall j | 0 <= j < i ensures rest[j].at < deadline && GoesOn(cfg, FlagsAt(cfg, g, rest, j), rest[j]) {
        assert script[j + 1].at < deadline && GoesOn(cfg, FlagsAt(cfg, f, script, j + 1), script[j + 1]);
      }
      assert script[0].at < deadline && GoesOn(cfg, FlagsAt(cfg, f, script, 0), script[0]);
    }
    if script[0].at < deadline && GoesOn(cfg, f, script[0]) && Reached(cfg, deadline, g, rest, i) {
      forall j | 0 <= j < i + 1 ensures script[j].at < deadline && GoesOn(cfg, FlagsAt(cfg, f, script, j), script[j]) {
        if j > 0 {
          assert rest[j - 1].at < deadline && GoesOn(cfg, FlagsAt(cfg, g, rest, j - 1), rest[j - 1]);
        }
      }
    }
  }

  lemma PassShift(cfg: Config, deadline: Time, f: Flags, script: seq<Observation>, what: RunEvent)
    requires script != []
    ensures AtSomePass(cfg, deadline, f, script, what) <==>
              || HappensIn(cfg, deadline, f, script[0], what)
              || (script[0].at < deadline && GoesOn(cfg, f, script[0])
                  && AtSomePass(cfg, deadline, Iterate(cfg, f, script[0]).flags, script[1..], what))
  {
    hide GoesOn, Iterate, Reached, HappensIn;
    var g, rest := Iterate(cfg, f, script[0]).flags, script[1..];
    PassReachShift(cfg, deadline, f, script, 0);
    if i :| 0 <= i < |script| && Reached(cfg, deadline, f, script, i)
            && HappensIn(cfg, deadline, FlagsAt(cfg, f, script, i), script[i], what) {
      if i > 0 {
        PassReachShift(cfg, deadline, f, script, i - 1);
        assert HappensIn(cfg, deadline, FlagsAt(cfg, g, rest, i - 1), rest[i - 1], what);
      }
    }
    if i :| 0 <= i < |rest| && Reached(cfg, deadline, g, rest, i)
            && HappensIn(cfg, deadline, FlagsAt(cfg, g, rest, i), rest[i], what) {
      PassReachShift(cfg, deadline, f, script, i);
      assert HappensIn(cfg, deadline, FlagsAt(cfg, f, script, i + 1), script[i + 1], what);
    }
    if HappensIn(cfg, deadline, f, script[0], what) {
      assert HappensIn(cfg, deadline, FlagsAt(cfg, f, script, 0), script[0], what);
    }
  }

  lemma NoPassMeets(cfg: Config, deadline: Time, f: Flags)
    ensures RunEndsSo(cfg, deadline, f, [], Report(CutShort, f, []))
  {}

  lemma PassShifts(cfg: Config, deadline: Time, f: Flags, script: seq<Observation>)
    requires script != []
    ensures var o, rest := script[0], script[1..];
            var g := Iterate(cfg, f, o).flags;
            && (Reached(cfg, deadline, f, script, |script|) <==>
                  o.at < deadline && GoesOn(cfg, f, o) && Reached(cfg, deadline, g, rest, |rest|))
            && (forall what :: AtSomePass(cfg, deadline, f, script, what) <==>
                  || HappensIn(cfg, deadline, f, o, what)
                  || (o.at < deadline && GoesOn(cfg, f, o) && AtSomePass(cfg, deadline, g, rest, what)))
  {
    hide GoesOn, Iterate, Reached, HappensIn, AtSomePass;
    PassReachShift(cfg, deadline, f, script, |script| - 1);
    forall what
      ensures AtSomePass(cfg, deadline, f, script, what) <==>
                || HappensIn(cfg, deadline, f, script[0], what)
                || (script[0].at < deadline && GoesOn(cfg, f, script[0])
                    && AtSomePass(cfg, deadline, Iterate(cfg, f, script[0]).flags, script[1..], what)) {
      PassShift(cfg, deadline, f, script, what);
    }
  }

  /** What the pass comes to, in the form the run needs it. */
  lemma PassEnds(cfg: Config, f: Flags, o: Observation)
    ensures var it := Iterate(cfg, f, o);
            && (it.verdict.Again? <==> GoesOn(cfg, f, o))
            && (forall e :: it.verdict == Failed(e) <==> Fails(cfg, f, o, e))
            && (forall u :: it.verdict == Finished(u) <==> OnPortal(o) && u == o.url)
            && (it.verdict.CutShort? <==> EnrolmentIsCut(f, o))
            && (forall e :: e in it.effects <==> Does(cfg, f, o, e))
  {
    hide Iterate, Fails, OnPortal, EnrolmentIsCut, GoesOnAfter, Does, LeavesFlags;
    PassMeans(cfg, f, o);
    assert Iterate(cfg, f, o).verdict.Again? ==> GoesOnAfter(cfg, f, o, Iterate(cfg, f, o).slept);
  }

  /** The whole run: with which error it fails, when it succeeds, and what it does to the page. */
  lemma {:induction false} RunComesTo(cfg: Config, deadline: Time, f: Flags, script: seq<Observation>)
    ensures RunEndsSo(cfg, deadline, f, script, Poll(cfg, deadline, f, script))
    decreases |script|
  {
    hide Iterate, Fails, OnPortal, EnrolmentIsCut, GoesOn, Does, Reached, AtSomePass;
    NoPassMeets(cfg, deadline, f);
    if script != [] {
      PassEnds(cfg, f, script[0]);
      PassShifts(cfg, deadline, f, script);
      if script[0].at < deadline && GoesOn(cfg, f, script[0]) {
        RunComesTo(cfg, deadline, Iterate(cfg, f, script[0]).flags, script[1..]);
      }
    }
  }

  /** If no pass up to pass `i` shows an error or is cut short, and pass `i` is the first to find the
      portal, before the deadline, the run succeeds there. */
  lemma FirstPortalSucceeds(cfg: Config, deadline: Time, f: Flags, script: seq<Observation>, i: nat)
    requires i < |script| && ShowsPortal(script[i])
    requires forall j | 0 <= j <= i ::
               && script[j].at < deadline
               && (forall e :: !Fails(cfg, FlagsAt(cfg, f, script, j), script[j], e))
               && !EnrolmentIsCut(FlagsAt(cfg, f, script, j), script[j])
    requires forall j | 0 <= j < i :: !ShowsPortal(script[j])
    ensures Poll(cfg, deadline, f, script).verdict == Finished(script[i].url)
  {
    forall j | 0 <= j < i ensures script[j].at < deadline && GoesOn(cfg, FlagsAt(cfg, f, script, j), script[j]) {
      PassEnds(cfg, FlagsAt(cfg, f, script, j), script[j]);
      hide Iterate, Fails, EnrolmentIsCut, GoesOn;
    }
    var g := FlagsAt(cfg, f, script, i);
    assert !Fails(cfg, g, script[i], RootDone) && !Fails(cfg, g, script[i], RebindFailed);
    assert OnPortal(script[i]);
    assert Reached(cfg, deadline, f, script, i);
    assert AtSomePass(cfg, deadline, f, script, Succeeds(script[i].url));
    hide AtSomePass, Poll;
    RunComesTo(cfg, deadline, f, script);
  }
}
