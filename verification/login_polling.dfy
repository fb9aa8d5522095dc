/** The loop that drives a login from the certificate click to the portal. The page, the
    browser targets and the clock answer as a script: one observation for each iteration,
    holding what the code would learn if it asked. Every finite behaviour is a script; a script
    that ends while the loop still runs leaves the run cut short. */
module LoginPolling {
  import opened Wrappers
  import opened Clock
  import opened Text
  import opened Totp
  import opened PageUrl

  const POLL_WINDOW := 180 * SECOND

  const ENROLL_WINDOW := 60 * SECOND

  const IDLE_LIMIT := 60 * SECOND

  const MAX_CERT_RETRIES := 5

  datatype Error =
    | RootDone | RebindFailed | NavigationFailed | TimedOut
    | SecretUnreadable | NoUsableSecret | CodeFailed(e: TotpError) | SubmitFailed | CannotSubmit
    | SecretMissing | EnrollWindowOver

  /** rebind: attached to a new target, nothing to attach to, or the browser is gone. */
  datatype Rebind = Rebound | Unchanged | Broken

  datatype Navigation = Navigated | NavigationLost | NavigationError

  datatype Reading = Read(span: string, hidden: string) | ReadLost | ReadError

  /** A form submission: done, no form, lost context, or another error. */
  datatype Submission = Sent | NoForm | SendLost | SendError

  /** One turn of the enrolment loop. */
  datatype EnrollTurn = EnrollTurn(
    at: Time, rebind: Rebind, ready: bool, reading: Reading, unix: int, submission: Submission,
    rebindAfter: Rebind, rootDone: bool)

  /** The 2FA prompt as one iteration sees it. */
  datatype Prompt = Prompt(evaluated: bool, present: bool, visible: bool, now: Time, unix: int, submission: Submission)

  datatype Observation = Observation(
    at: Time, rootDone: bool, alive: bool, rebind: Rebind, url: string, navigation: Navigation,
    enrollStart: Time, turns: seq<EnrollTurn>, prompt: Prompt,
    certEvaluated: bool, certClicked: bool, clickTime: Time, rootDoneInSleep: bool)

  datatype Config = Config(mac: Mac, totpSecret: string)

  /** The flags of a run, written by the helpers through pointers in Go. */
  datatype Flags = Flags(certRetries: nat, twoFaSubmitted: bool, totpEnrolled: bool, certClickedAt: Time)

  /** What the click script answers: it clicked, found nothing to click, or its answer was lost. */
  datatype ClickAnswer = Clicked | NotClicked | ClickLost

  /** What a run does to the page, with the answers that came back, and its pauses. A script may
      have acted on the page even if its answer was lost. `FormRan` has the secret handed over and
      the code for the form, `CodeRan` the code for the prompt. */
  datatype Effect =
    | Restarted(outcome: Navigation)
    | EnrollEntered | EnrollTried | FormRan(secret: string, code: string, answer: Submission) | EnrollPaused
    | CodeRan(typed: string, answer: Submission)
    | ClickRan(click: ClickAnswer)
    | Slept

  type Effects = seq<Effect>

  // The steps.

  /** `ran` are the secret and the code with which the form's script ran, if it did. */
  datatype Attempt = Attempt(ok: bool, err: Option<Error>, enrolled: bool, ran: Option<(string, string)>)

  /** maybeEnrollTOTP */
  function MaybeEnroll(mac: Mac, cur: string, enrolled: bool, o: EnrollTurn): (a: Attempt)
    ensures a.ok <==> a.ran.Some? && o.submission.Sent?
    ensures a.ok ==> a.enrolled && a.err.None?
    ensures !a.ok ==> a.enrolled == enrolled
    ensures a.ran.Some? ==> !enrolled && (a.err.None? <==> !o.submission.SendError?)
  {
    if enrolled || !Contains(cur, CONFIGURE_TOTP_MARKER) then Attempt(false, None, enrolled, None)
    else if o.rebind.Broken? then Attempt(false, Some(RebindFailed), enrolled, None)
    else if !o.ready then Attempt(false, None, enrolled, None)
    else match o.reading
      case ReadLost => Attempt(false, None, enrolled, None)
      case ReadError => Attempt(false, Some(SecretUnreadable), enrolled, None)
      case Read(span, hidden) =>
        var secret := ChooseTotpSecret(span, hidden);
        if secret.None? then Attempt(false, Some(NoUsableSecret), enrolled, None)
        else
          var code := CodeAt(mac, secret.value, o.unix);
          if code.Err? then Attempt(false, Some(CodeFailed(code.error)), enrolled, None)
          else
            var ran := Some((secret.value, code.value));
            match o.submission
            case Sent => Attempt(true, None, true, ran)
            case SendError => Attempt(false, Some(SubmitFailed), enrolled, ran)
            case _ => Attempt(false, None, enrolled, ran)
  }

  /** `ran` is the code with which the prompt's script ran, if it did. */
  datatype Handling = Handling(handled: bool, err: Option<Error>, submitted: bool, ran: Option<string>)

  /** maybeHandle2FA */
  function MaybeHandle2Fa(cfg: Config, cur: string, certClickedAt: Time, submitted: bool, o: Prompt): (h: Handling)
    ensures h.handled <==> h.ran.Some? && o.submission.Sent?
    ensures h.handled ==> h.submitted && h.err.None?
    ensures !h.handled ==> h.submitted == submitted
    ensures h.ran.Some? ==> !submitted && (h.err.None? <==> o.submission.Sent? || o.submission.SendLost?)
  {
    if submitted || !o.evaluated || !o.present then Handling(false, None, submitted, None)
    else if cfg.totpSecret == "" then Handling(false, Some(SecretMissing), submitted, None)
    else if !o.visible && !(Contains(cur, SSO_HOST) && o.now - certClickedAt > IDLE_LIMIT) then
      Handling(false, None, submitted, None)
    else
      var code := CodeAt(cfg.mac, cfg.totpSecret, o.unix);
      if code.Err? then Handling(false, Some(CodeFailed(code.error)), submitted, None)
      else
        var ran := Some(code.value);
        match o.submission
        case Sent => Handling(true, None, true, ran)
        case NoForm => Handling(false, Some(CannotSubmit), submitted, ran)
        case SendLost => Handling(false, None, submitted, ran)
        case SendError => Handling(false, Some(SubmitFailed), submitted, ran)
  }

  function AnswerOf(o: Observation): ClickAnswer {
    if !o.certEvaluated then ClickLost else if o.certClicked then Clicked else NotClicked
  }

  /** maybeRetryCert: what its script answers, if it runs. */
  function RetryCert(retries: nat, o: Observation): (a: Option<ClickAnswer>)
    ensures a.Some? <==> retries < MAX_CERT_RETRIES
  {
    if retries >= MAX_CERT_RETRIES then None else Some(AnswerOf(o))
  }

  /** enrollTOTPRobust returns a flag and an error, or the script ends inside it. */
  datatype Enrollment = Returned(ok: bool, err: Option<Error>) | EnrollCut

  datatype EnrollRun = EnrollRun(result: Enrollment, enrolled: bool, effects: Effects)

  /** Effects that came before. */
  function After(before: Effects, r: EnrollRun): EnrollRun {
    r.(effects := before + r.effects)
  }

  /** The run of the form's script in an attempt, if there was one. */
  function FormEffects(a: Attempt, o: EnrollTurn): Effects {
    if a.ran.Some? then [FormRan(a.ran.value.0, a.ran.value.1, o.submission)] else []
  }

  function CodeEffects(h: Handling, o: Prompt): Effects {
    if h.ran.Some? then [CodeRan(h.ran.value, o.submission)] else []
  }

  function ClickEffects(a: Option<ClickAnswer>): Effects {
    if a.Some? then [ClickRan(a.value)] else []
  }

  /** The enrolment loop from a turn on. */
  function EnrollLoop(mac: Mac, cur: string, enrolled: bool, end: Time, turns: seq<EnrollTurn>): EnrollRun
    decreases |turns|
  {
    if turns == [] then EnrollRun(EnrollCut, enrolled, [])
    else
      var o := turns[0];
      if o.at >= end then EnrollRun(Returned(false, Some(EnrollWindowOver)), enrolled, [])
      else
        var a := MaybeEnroll(mac, cur, enrolled, o);
        var done := [EnrollTried] + FormEffects(a, o);
        if a.err.Some? then EnrollRun(Returned(false, a.err), a.enrolled, done)
        else if a.ok then EnrollRun(Returned(true, None), a.enrolled, done)
        else if o.rebindAfter.Broken? then EnrollRun(Returned(false, Some(RebindFailed)), a.enrolled, done)
        else if o.rootDone then EnrollRun(Returned(false, Some(RootDone)), a.enrolled, done)
        else After(done + [EnrollPaused], EnrollLoop(mac, cur, a.enrolled, end, turns[1..]))
  }

  /** How an iteration of the main loop ends. */
  datatype Verdict = Again | Finished(url: string) | Failed(err: Error) | CutShort

  datatype Iteration = Iteration(verdict: Verdict, flags: Flags, effects: Effects, slept: Time)

  function Pause(o: Observation, d: Time, flags: Flags, effects: Effects): Iteration {
    if o.rootDoneInSleep then Iteration(Failed(RootDone), flags, effects, 0)
    else Iteration(Again, flags, effects + [Slept], d)
  }

  /** One iteration of awaitAuthenticated, once the clock was found before the deadline. */
  function Iterate(cfg: Config, f: Flags, o: Observation): Iteration {
    if o.rootDone then Iteration(Failed(RootDone), f, [], 0)
    else if !o.alive && o.rebind.Broken? then Iteration(Failed(RebindFailed), f, [], 0)
    else if IsAuthenticatedUrl(o.url) then Iteration(Finished(o.url), f, [], 0)
    else if IsGovBrUrl(o.url) then
      match o.navigation
      case Navigated => Pause(o, 3 * SECOND, f, [Restarted(Navigated)])
      case NavigationLost => Iteration(Again, f, [Restarted(NavigationLost)], 0)
      case NavigationError => Iteration(Failed(NavigationFailed), f, [Restarted(NavigationError)], 0)
    else if ShouldAttemptTotpEnroll(o.url, f.totpEnrolled) then EnrollFirst(cfg, f, o)
    else PromptAndCert(cfg, f, o)
  }

  /** An iteration that finds the CONFIGURE_TOTP page. */
  function EnrollFirst(cfg: Config, f: Flags, o: Observation): Iteration {
    var e := EnrollLoop(cfg.mac, o.url, f.totpEnrolled, o.enrollStart + ENROLL_WINDOW, o.turns);
    var g := f.(totpEnrolled := e.enrolled);
    var done := [EnrollEntered] + e.effects;
    match e.result
    case EnrollCut => Iteration(CutShort, g, done, 0)
    case Returned(ok, err) =>
      if err.Some? then Iteration(Failed(err.value), g, done, 0)
      else if ok then Pause(o, 5 * SECOND, g, done)
      else
        var it := PromptAndCert(cfg, g, o);
        it.(effects := done + it.effects)
  }

  /** The second half of an iteration: the 2FA prompt, the certificate link, the pause. */
  function PromptAndCert(cfg: Config, f: Flags, o: Observation): Iteration {
    var h := MaybeHandle2Fa(cfg, o.url, f.certClickedAt, f.twoFaSubmitted, o.prompt);
    var g := f.(twoFaSubmitted := h.submitted);
    var typed := CodeEffects(h, o.prompt);
    if h.err.Some? then Iteration(Failed(h.err.value), g, typed, 0)
    else if h.handled then Pause(o, 5 * SECOND, g, typed)
    else
      var click := RetryCert(g.certRetries, o);
      var done := typed + ClickEffects(click);
      if click == Some(Clicked) then
        Pause(o, 5 * SECOND, g.(certRetries := g.certRetries + 1, certClickedAt := o.clickTime), done)
      else Pause(o, 1 * SECOND, g, done)
  }

  /** A whole run: a nil return with its address, an error, or a script that ended. */
  datatype Report = Report(verdict: Verdict, flags: Flags, effects: Effects)

  function Poll(cfg: Config, deadline: Time, f: Flags, script: seq<Observation>): Report
    decreases |script|
  {
    if script == [] then Report(CutShort, f, [])
    else if script[0].at >= deadline then Report(Failed(TimedOut), f, [])
    else
      var it := Iterate(cfg, f, script[0]);
      if it.verdict.Again? then
        var rest := Poll(cfg, deadline, it.flags, script[1..]);
        rest.(effects := it.effects + rest.effects)
      else Report(it.verdict, it.flags, it.effects)
  }

  /** The flags after the first certificate click. */
  function InitialFlags(clickedAt: Time): Flags {
    Flags(0, false, false, clickedAt)
  }

  // Bounds on what a run does.

  predicate Enters(e: Effect) { e.EnrollEntered? }
  predicate Tries(e: Effect) { e.EnrollTried? }
  predicate Sleeps(e: Effect) { e.Slept? }
  predicate Restarts(e: Effect) { e.Restarted? }

  // The script of the enrolment form ran; the page confirmed it; it did not, and more may follow.
  predicate RunsForm(e: Effect) { e.FormRan? }
  predicate Submits(e: Effect) { e.FormRan? && e.answer.Sent? }
  predicate MissesForm(e: Effect) { e.FormRan? && (e.answer.SendLost? || e.answer.NoForm?) }

  // The same for the script of the 2FA prompt.
  predicate RunsCode(e: Effect) { e.CodeRan? }
  predicate Types(e: Effect) { e.CodeRan? && e.answer.Sent? }
  predicate LosesCode(e: Effect) { e.CodeRan? && e.answer.SendLost? }

  // And for the certificate link, which may have been clicked if it was not found missing.
  predicate RunsClick(e: Effect) { e.ClickRan? }
  predicate Clicks(e: Effect) { e.ClickRan? && e.click.Clicked? }
  predicate LosesClick(e: Effect) { e.ClickRan? && e.click.ClickLost? }
  predicate MayClick(e: Effect) { e.ClickRan? && !e.click.NotClicked? }

  /** How many effects of one kind a run had. */
  ghost function Times(es: Effects, p: Effect -> bool): nat {
    if es == [] then 0 else One(p(es[0])) + Times(es[1..], p)
  }

  lemma {:induction false} TimesOfConcat(a: Effects, b: Effects)
    ensures forall p :: Times(a + b, p) == Times(a, p) + Times(b, p)
  {
    if a == [] {
      assert a + b == b;
    } else {
      TimesOfConcat(a[1..], b);
      assert (a + b)[1..] == a[1..] + b;
    }
  }

  lemma TimesOfOne(e: Effect)
    ensures forall p :: Times([e], p) == One(p(e))
  {
    assert [e][1..] == [];
  }

  lemma TimesOfTwo(e: Effect, es: Effects)
    ensures forall p :: Times([e] + es, p) == One(p(e)) + Times(es, p)
    ensures forall p :: Times(es + [e], p) == One(p(e)) + Times(es, p)
  {
    TimesOfConcat([e], es);
    TimesOfConcat(es, [e]);
    TimesOfOne(e);
  }

  lemma {:induction false} TimesAndMembers(es: Effects, p: Effect -> bool)
    ensures Times(es, p) > 0 <==> exists e :: e in es && p(e)
  {
    if es != [] {
      TimesAndMembers(es[1..], p);
      assert es == [es[0]] + es[1..];
    }
  }

  /** The effects of a stretch match its flags: a form was confirmed exactly when a flag went up,
      and the confirmed clicks are what the counter gained. */
  ghost predicate Balanced(f: Flags, g: Flags, es: Effects) {
    && Times(es, Clicks) + f.certRetries == g.certRetries
    && Times(es, Types) + One(f.twoFaSubmitted) == One(g.twoFaSubmitted)
    && Times(es, Submits) + One(f.totpEnrolled) == One(g.totpEnrolled)
    && (f.certRetries <= MAX_CERT_RETRIES ==> g.certRetries <= MAX_CERT_RETRIES)
  }

  /** enrollTOTPRobust never returns false without an error, and true only with the flag set;
      only then was a form confirmed. */
  lemma {:induction false} EnrollReturns(mac: Mac, cur: string, end: Time, turns: seq<EnrollTurn>)
    ensures var e := EnrollLoop(mac, cur, false, end, turns);
            && (e.result.Returned? ==> (e.result.ok <==> e.result.err.None?) && (e.result.ok <==> e.enrolled))
            && (e.result.EnrollCut? ==> !e.enrolled)
            && Times(e.effects, Submits) == One(e.enrolled)
            && Times(e.effects, Clicks) == Times(e.effects, RunsClick) == Times(e.effects, Enters) == 0
            && Times(e.effects, Types) == Times(e.effects, RunsCode) == 0
            && Times(e.effects, Sleeps) == Times(e.effects, Restarts) == 0
    decreases |turns|
  {
    hide MaybeEnroll, Times, FormEffects;
    NoTimes();
    if turns != [] && turns[0].at < end {
      var a := MaybeEnroll(mac, cur, false, turns[0]);
      var rest := EnrollLoop(mac, cur, false, end, turns[1..]);
      EnrollReturns(mac, cur, end, turns[1..]);
      TimesOfTurn(a, turns[0], rest.effects);
    }
  }

  lemma NoTimes()
    ensures forall p :: Times([], p) == 0
  {}

  lemma TimesOfForm(a: Attempt, o: EnrollTurn)
    ensures forall p :: Times(FormEffects(a, o), p)
                     == if a.ran.Some? then One(p(FormRan(a.ran.value.0, a.ran.value.1, o.submission))) else 0
  {
    NoTimes();
    if a.ran.Some? {
      TimesOfOne(FormRan(a.ran.value.0, a.ran.value.1, o.submission));
    }
  }

  lemma TimesOfTurn(a: Attempt, o: EnrollTurn, rest: Effects)
    ensures forall p :: Times(FormEffects(a, o), p)
                     == if a.ran.Some? then One(p(FormRan(a.ran.value.0, a.ran.value.1, o.submission))) else 0
    ensures forall p :: Times([EnrollTried] + FormEffects(a, o), p) == One(p(EnrollTried)) + Times(FormEffects(a, o), p)
    ensures forall p :: Times([EnrollTried] + FormEffects(a, o) + [EnrollPaused] + rest, p)
                     == One(p(EnrollTried)) + Times(FormEffects(a, o), p) + One(p(EnrollPaused)) + Times(rest, p)
  {
    TimesOfForm(a, o);
    var form := FormEffects(a, o);
    TimesOfTwo(EnrollTried, form);
    TimesOfTwo(EnrollPaused, [EnrollTried] + form);
    TimesOfConcat([EnrollTried] + form + [EnrollPaused], rest);
  }

  lemma TimesOfPrompt(h: Handling, o: Prompt, click: Option<ClickAnswer>)
    ensures forall p :: Times(CodeEffects(h, o), p)
                     == if h.ran.Some? then One(p(CodeRan(h.ran.value, o.submission))) else 0
    ensures forall p :: Times(CodeEffects(h, o) + [Slept], p) == Times(CodeEffects(h, o), p) + One(p(Slept))
    ensures var click' := ClickEffects(click);
            forall p :: Times(CodeEffects(h, o) + click', p)
                     == Times(CodeEffects(h, o), p) + if click.Some? then One(p(ClickRan(click.value))) else 0
    ensures forall p :: Times(CodeEffects(h, o) + ClickEffects(click) + [Slept], p)
                     == Times(CodeEffects(h, o) + ClickEffects(click), p) + One(p(Slept))
  {
    NoTimes();
    if h.ran.Some? {
      TimesOfOne(CodeRan(h.ran.value, o.submission));
    }
    if click.Some? {
      TimesOfOne(ClickRan(click.value));
    }
    TimesOfConcat(CodeEffects(h, o), ClickEffects(click));
    TimesOfTwo(Slept, CodeEffects(h, o));
    TimesOfTwo(Slept, CodeEffects(h, o) + ClickEffects(click));
  }

  /** What one iteration does. The enrolment is entered only while nothing was enrolled, and
      afterwards the run has enrolled, failed, or been cut short. */
  ghost predicate Orderly(f: Flags, o: Observation, it: Iteration) {
    && Balanced(f, it.flags, it.effects)
    && Times(it.effects, Enters) + One(f.totpEnrolled) <= 1
    && (Times(it.effects, Enters) > 0 && it.verdict.Again? ==> it.flags.totpEnrolled)
    && Times(it.effects, Sleeps) == One(it.slept > 0)
    && (it.slept > 0 ==> it.verdict.Again? && it.slept >= SECOND)
    && (it.verdict.Again? && it.slept <= 0 ==> it.slept == 0 && IsGovBrUrl(o.url) && o.navigation.NavigationLost?)
    && (it.verdict.Finished? ==> it.verdict.url == o.url && IsAuthenticatedUrl(o.url))
    && (it.verdict.Again? ==> !IsAuthenticatedUrl(o.url))
  }

  lemma IterationIsOrderly(cfg: Config, f: Flags, o: Observation)
    ensures Orderly(f, o, Iterate(cfg, f, o))
  {
    hide IsAuthenticatedUrl, IsGovBrUrl, IsConfigureTotpUrl, EnrollFirst, PromptAndCert, Orderly, Pause;
    if o.rootDone || (!o.alive && o.rebind.Broken?) || IsAuthenticatedUrl(o.url) || IsGovBrUrl(o.url) {
      EarlyIsOrderly(f, o, Iterate(cfg, f, o));
    } else if ShouldAttemptTotpEnroll(o.url, f.totpEnrolled) {
      EnrollIsOrderly(cfg, f, o);
    } else {
      PromptIsOrderly(cfg, f, o);
    }
  }

  /** The ends of an iteration that need no look at the page. */
  ghost predicate EndsEarly(f: Flags, o: Observation, it: Iteration) {
    || (it.verdict.Failed? && it == Iteration(it.verdict, f, [], 0))
    || (it.verdict.Failed? && it == Iteration(it.verdict, f, [Restarted(o.navigation)], 0))
    || (IsAuthenticatedUrl(o.url) && it == Iteration(Finished(o.url), f, [], 0))
    || (!IsAuthenticatedUrl(o.url) && IsGovBrUrl(o.url) && o.navigation.NavigationLost?
        && it == Iteration(Again, f, [Restarted(o.navigation)], 0))
    || (!IsAuthenticatedUrl(o.url) && it == Pause(o, 3 * SECOND, f, [Restarted(o.navigation)]))
  }

  lemma EarlyIsOrderly(f: Flags, o: Observation, it: Iteration)
    requires EndsEarly(f, o, it)
    ensures Orderly(f, o, it)
  {
    hide IsAuthenticatedUrl, IsGovBrUrl, Times;
    NoTimes();
    TimesOfOne(Restarted(o.navigation));
    TimesOfTwo(Slept, [Restarted(o.navigation)]);
  }

  lemma PromptIsOrderly(cfg: Config, f: Flags, o: Observation)
    requires !IsAuthenticatedUrl(o.url)
    ensures Orderly(f, o, PromptAndCert(cfg, f, o))
    ensures Times(PromptAndCert(cfg, f, o).effects, Enters) == Times(PromptAndCert(cfg, f, o).effects, Tries) == 0
  {
    hide IsAuthenticatedUrl, IsGovBrUrl, MaybeHandle2Fa, Times, CodeEffects, ClickEffects;
    var h := MaybeHandle2Fa(cfg, o.url, f.certClickedAt, f.twoFaSubmitted, o.prompt);
    TimesOfPrompt(h, o.prompt, RetryCert(f.certRetries, o));
  }

  lemma EnrollIsOrderly(cfg: Config, f: Flags, o: Observation)
    requires !f.totpEnrolled && !IsAuthenticatedUrl(o.url)
    ensures Orderly(f, o, EnrollFirst(cfg, f, o))
  {
    hide IsAuthenticatedUrl, IsGovBrUrl, EnrollLoop, PromptAndCert, Times;
    EnrollReturns(cfg.mac, o.url, o.enrollStart + ENROLL_WINDOW, o.turns);
    var es := EnrollLoop(cfg.mac, o.url, false, o.enrollStart + ENROLL_WINDOW, o.turns).effects;
    TimesOfTwo(EnrollEntered, es);
    TimesOfTwo(Slept, [EnrollEntered] + es);
  }

  /** Every run, whatever the page does: enrolment is entered at most once, its form and a 2FA
      code are confirmed at most once each, a click of the certificate link at most five times,
      and the final flags say how often. */
  lemma {:induction false} RunIsBounded(cfg: Config, deadline: Time, f: Flags, script: seq<Observation>)
    requires f.certRetries <= MAX_CERT_RETRIES
    ensures var r := Poll(cfg, deadline, f, script);
            && Balanced(f, r.flags, r.effects)
            && Times(r.effects, Enters) + One(f.totpEnrolled) <= 1
            && Times(r.effects, Submits) + One(f.totpEnrolled) <= 1
            && Times(r.effects, Types) + One(f.twoFaSubmitted) <= 1
            && Times(r.effects, Clicks) + f.certRetries <= MAX_CERT_RETRIES
    decreases |script|
  {
    hide Iterate, IsAuthenticatedUrl, IsGovBrUrl, Times;
    NoTimes();
    if script != [] && script[0].at < deadline {
      var it := Iterate(cfg, f, script[0]);
      IterationIsOrderly(cfg, f, script[0]);
      if it.verdict.Again? {
        RunIsBounded(cfg, deadline, it.flags, script[1..]);
        TimesOfConcat(it.effects, Poll(cfg, deadline, it.flags, script[1..]).effects);
      }
    }
  }

  // What the page may have received without confirming it.

  /** Only after an answer like `q` does a script `p` run again. */
  ghost predicate OnlyRepeats(es: Effects, p: Effect -> bool, q: Effect -> bool) {
    forall i, j | 0 <= i < j < |es| && p(es[i]) && p(es[j]) :: q(es[i])
  }

  lemma RepeatsOfConcat(a: Effects, b: Effects, p: Effect -> bool, q: Effect -> bool)
    requires OnlyRepeats(a, p, q) && OnlyRepeats(b, p, q)
    requires Times(b, p) == 0 || forall e :: e in a && p(e) ==> q(e)
    ensures OnlyRepeats(a + b, p, q)
  {
    TimesAndMembers(b, p);
    var s := a + b;
    forall i, j | 0 <= i < j < |s| && p(s[i]) && p(s[j]) ensures q(s[i]) {
      if j >= |a| {
        assert s[j] in b;
        if i < |a| { assert s[i] in a; }
      }
    }
  }

  lemma NoRepeats(es: Effects, p: Effect -> bool, q: Effect -> bool)
    requires Times(es, p) == 0
    ensures OnlyRepeats(es, p, q)
  {
    TimesAndMembers(es, p);
    assert forall i | 0 <= i < |es| :: es[i] in es;
  }

  /** So a script runs at most once more than it got such an answer. */
  lemma {:induction false} RepeatsAreCounted(es: Effects, p: Effect -> bool, q: Effect -> bool)
    requires OnlyRepeats(es, p, q)
    ensures Times(es, p) <= 1 + Times(es, q)
  {
    if es != [] {
      var rest := es[1..];
      assert forall i | 0 <= i < |rest| :: rest[i] == es[i + 1];
      RepeatsAreCounted(rest, p, q);
      TimesAndMembers(rest, p);
      if p(es[0]) && Times(rest, p) > 0 {
        var e :| e in rest && p(e);
        var j :| 0 <= j < |rest| && rest[j] == e;
        assert q(es[0]);
      }
    }
  }

  lemma {:induction false} EnrollRepeats(mac: Mac, cur: string, end: Time, turns: seq<EnrollTurn>)
    ensures OnlyRepeats(EnrollLoop(mac, cur, false, end, turns).effects, RunsForm, MissesForm)
    decreases |turns|
  {
    hide MaybeEnroll, Times, OnlyRepeats;
    NoTimes();
    NoRepeats([], RunsForm, MissesForm);
    if turns != [] && turns[0].at < end {
      var a := MaybeEnroll(mac, cur, false, turns[0]);
      TurnRepeats(a, turns[0]);
      if a.err.None? && !a.ok {
        var rest := EnrollLoop(mac, cur, a.enrolled, end, turns[1..]).effects;
        EnrollRepeats(mac, cur, end, turns[1..]);
        RepeatsOfConcat([EnrollTried] + FormEffects(a, turns[0]) + [EnrollPaused], rest, RunsForm, MissesForm);
      }
    }
  }

  lemma TurnRepeats(a: Attempt, o: EnrollTurn)
    ensures OnlyRepeats([EnrollTried] + FormEffects(a, o), RunsForm, MissesForm)
    ensures OnlyRepeats([EnrollTried] + FormEffects(a, o) + [EnrollPaused], RunsForm, MissesForm)
    ensures a.ran.Some? && (o.submission.SendLost? || o.submission.NoForm?) ==>
              forall e :: e in [EnrollTried] + FormEffects(a, o) + [EnrollPaused] && RunsForm(e) ==> MissesForm(e)
    ensures a.ran.None? ==> forall e :: e in [EnrollTried] + FormEffects(a, o) + [EnrollPaused] ==> !RunsForm(e)
  {}

  /** What one iteration runs: nothing that a flag says is done, the prompt's script at most once,
      and another run may follow only if the answer was lost. */
  ghost predicate Sparing(f: Flags, it: Iteration) {
    && (f.twoFaSubmitted ==> Times(it.effects, RunsCode) == 0)
    && (f.totpEnrolled ==> Times(it.effects, RunsForm) == 0)
    && (f.certRetries >= MAX_CERT_RETRIES ==> Times(it.effects, RunsClick) == 0)
    && OnlyRepeats(it.effects, RunsCode, LosesCode)
    && OnlyRepeats(it.effects, RunsForm, MissesForm)
    && (it.verdict.Again? && !it.flags.twoFaSubmitted ==> forall e :: e in it.effects && RunsCode(e) ==> LosesCode(e))
    && (it.verdict.Again? && !it.flags.totpEnrolled ==> Times(it.effects, RunsForm) == 0)
  }

  lemma EarlyIsSparing(f: Flags, o: Observation, it: Iteration)
    requires EndsEarly(f, o, it)
    ensures Sparing(f, it)
  {
    hide IsAuthenticatedUrl, IsGovBrUrl, Times;
    NoTimes();
    TimesOfOne(Restarted(o.navigation));
    TimesOfTwo(Slept, [Restarted(o.navigation)]);
  }

  lemma PromptIsSparing(cfg: Config, f: Flags, o: Observation)
    ensures Sparing(f, PromptAndCert(cfg, f, o))
  {
    hide MaybeHandle2Fa, Times, CodeEffects, ClickEffects, OnlyRepeats;
    var it := PromptAndCert(cfg, f, o);
    var h := MaybeHandle2Fa(cfg, o.url, f.certClickedAt, f.twoFaSubmitted, o.prompt);
    TimesOfPrompt(h, o.prompt, RetryCert(f.certRetries, o));
    NoRepeats(it.effects, RunsForm, MissesForm);
    FewRepeats(it.effects, RunsCode, LosesCode);
    if h.ran.None? || o.prompt.submission.SendLost? {
      CodesOfPrompt(h, o.prompt, RetryCert(f.certRetries, o));
    }
  }

  lemma {:induction false} FewRepeats(es: Effects, p: Effect -> bool, q: Effect -> bool)
    requires Times(es, p) <= 1
    ensures OnlyRepeats(es, p, q)
  {
    if es != [] {
      var rest := es[1..];
      FewRepeats(rest, p, q);
      TimesAndMembers(rest, p);
      assert forall i | 0 <= i < |rest| :: rest[i] == es[i + 1] && rest[i] in rest;
    }
  }

  lemma CodesOfPrompt(h: Handling, o: Prompt, click: Option<ClickAnswer>)
    requires h.ran.Some? ==> o.submission.SendLost?
    ensures forall e :: e in CodeEffects(h, o) + ClickEffects(click) + [Slept] && RunsCode(e) ==> LosesCode(e)
  {}

  lemma EnrollIsSparing(cfg: Config, f: Flags, o: Observation)
    requires !f.totpEnrolled
    ensures Sparing(f, EnrollFirst(cfg, f, o))
  {
    hide EnrollLoop, PromptAndCert, Times, OnlyRepeats;
    var end := o.enrollStart + ENROLL_WINDOW;
    EnrollReturns(cfg.mac, o.url, end, o.turns);
    EnrollRepeats(cfg.mac, o.url, end, o.turns);
    var es := EnrollLoop(cfg.mac, o.url, false, end, o.turns).effects;
    TimesOfTwo(EnrollEntered, es);
    TimesOfTwo(Slept, [EnrollEntered] + es);
    EnteredRepeats(es);
    NoRepeats(EnrollFirst(cfg, f, o).effects, RunsCode, LosesCode);
    TimesAndMembers(EnrollFirst(cfg, f, o).effects, RunsCode);
  }

  lemma EnteredRepeats(es: Effects)
    requires OnlyRepeats(es, RunsForm, MissesForm)
    ensures OnlyRepeats([EnrollEntered] + es, RunsForm, MissesForm)
    ensures OnlyRepeats([EnrollEntered] + es + [Slept], RunsForm, MissesForm)
  {
    TimesOfOne(EnrollEntered);
    TimesOfOne(Slept);
    NoRepeats([EnrollEntered], RunsForm, MissesForm);
    NoRepeats([Slept], RunsForm, MissesForm);
    RepeatsOfConcat([EnrollEntered], es, RunsForm, MissesForm);
    RepeatsOfConcat([EnrollEntered] + es, [Slept], RunsForm, MissesForm);
  }

  lemma IterationIsSparing(cfg: Config, f: Flags, o: Observation)
    ensures Sparing(f, Iterate(cfg, f, o))
  {
    hide IsAuthenticatedUrl, IsGovBrUrl, IsConfigureTotpUrl, EnrollFirst, PromptAndCert, Sparing, Pause;
    if o.rootDone || (!o.alive && o.rebind.Broken?) || IsAuthenticatedUrl(o.url) || IsGovBrUrl(o.url) {
      EarlyIsSparing(f, o, Iterate(cfg, f, o));
    } else if ShouldAttemptTotpEnroll(o.url, f.totpEnrolled) {
      EnrollIsSparing(cfg, f, o);
    } else {
      PromptIsSparing(cfg, f, o);
    }
  }

  /** In every run the prompt's script runs again only after its answer was lost, and that of the
      form only after it was lost or there was no form; neither does once its flag is up. */
  lemma {:induction false} RunRepeatsOnlyWhenLost(cfg: Config, deadline: Time, f: Flags, script: seq<Observation>)
    ensures var es := Poll(cfg, deadline, f, script).effects;
            && OnlyRepeats(es, RunsCode, LosesCode) && OnlyRepeats(es, RunsForm, MissesForm)
            && (f.twoFaSubmitted ==> Times(es, RunsCode) == 0)
            && (f.totpEnrolled ==> Times(es, RunsForm) == 0)
            && (f.certRetries >= MAX_CERT_RETRIES ==> Times(es, RunsClick) == 0)
    decreases |script|
  {
    hide Iterate, IsAuthenticatedUrl, IsGovBrUrl, Times, OnlyRepeats;
    NoTimes();
    NoRepeats([], RunsCode, LosesCode);
    NoRepeats([], RunsForm, MissesForm);
    if script != [] && script[0].at < deadline {
      var it := Iterate(cfg, f, script[0]);
      IterationIsSparing(cfg, f, script[0]);
      IterationIsOrderly(cfg, f, script[0]);
      if it.verdict.Again? {
        var rest := Poll(cfg, deadline, it.flags, script[1..]).effects;
        RunRepeatsOnlyWhenLost(cfg, deadline, it.flags, script[1..]);
        TimesOfConcat(it.effects, rest);
        TimesAndMembers(it.effects, RunsForm);
        RepeatsOfConcat(it.effects, rest, RunsCode, LosesCode);
        RepeatsOfConcat(it.effects, rest, RunsForm, MissesForm);
      }
    }
  }

  lemma {:induction false} ClicksAddUp(es: Effects)
    ensures Times(es, MayClick) == Times(es, Clicks) + Times(es, LosesClick)
  {
    if es != [] {
      ClicksAddUp(es[1..]);
    }
  }

  /** So in every run a script may reach the page at most as often as it was to be confirmed, and
      once more for every answer that did not come: one code, one form, five clicks. */
  lemma ReachesThePage(cfg: Config, deadline: Time, f: Flags, script: seq<Observation>)
    requires f.certRetries <= MAX_CERT_RETRIES
    ensures var es := Poll(cfg, deadline, f, script).effects;
            && Times(es, RunsCode) <= 1 + Times(es, LosesCode)
            && Times(es, RunsForm) <= 1 + Times(es, MissesForm)
            && Times(es, MayClick) + f.certRetries <= MAX_CERT_RETRIES + Times(es, LosesClick)
  {
    hide Times, Poll, OnlyRepeats;
    var es := Poll(cfg, deadline, f, script).effects;
    RunRepeatsOnlyWhenLost(cfg, deadline, f, script);
    RepeatsAreCounted(es, RunsCode, LosesCode);
    RepeatsAreCounted(es, RunsForm, MissesForm);
    ClicksAddUp(es);
    RunIsBounded(cfg, deadline, f, script);
  }

  /** A page with a visible prompt and the certificate link that loses every answer. */
  function LosingPass(at: Time): Observation {
    Observation(at, false, true, Unchanged, "", Navigated, at, [],
                Prompt(true, true, true, at, 0, SendLost), false, false, at, false)
  }

  /** Nothing but the deadline ends such repeats: on that page every pass types a code and may
      click the link, however many there are. */
  lemma {:induction false} LostAnswersRepeat(cfg: Config, deadline: Time, f: Flags, script: seq<Observation>)
    requires KeyOf(cfg.totpSecret).Some? && !f.twoFaSubmitted && f.certRetries < MAX_CERT_RETRIES
    requires forall i | 0 <= i < |script| :: script[i].at < deadline && script[i] == LosingPass(script[i].at)
    ensures var r := Poll(cfg, deadline, f, script);
            && r.flags == f && r.verdict.CutShort?
            && Times(r.effects, LosesCode) == Times(r.effects, LosesClick) == |script|
            && Times(r.effects, Types) == Times(r.effects, Clicks) == 0
    decreases |script|
  {
    hide Times, Iterate, KeyOf, LosingPass;
    NoTimes();
    if script != [] {
      LosingPassRepeats(cfg, f, script[0].at);
      var rest := script[1..];
      assert forall i | 0 <= i < |rest| :: rest[i] == script[i + 1];
      LostAnswersRepeat(cfg, deadline, f, rest);
      TimesOfConcat(Iterate(cfg, f, script[0]).effects, Poll(cfg, deadline, f, rest).effects);
    }
  }

  lemma LosingPassRepeats(cfg: Config, f: Flags, at: Time)
    requires KeyOf(cfg.totpSecret).Some? && !f.twoFaSubmitted && f.certRetries < MAX_CERT_RETRIES
    ensures var it := Iterate(cfg, f, LosingPass(at));
            && it.verdict.Again? && it.flags == f
            && Times(it.effects, LosesCode) == Times(it.effects, LosesClick) == 1
            && Times(it.effects, Types) == Times(it.effects, Clicks) == 0
  {
    hide Times, KeyOf, Code, CodeEffects, ClickEffects;
    var o := LosingPass(at);
    assert !NamesPortal("") && !IsGovBrUrl("") && !IsConfigureTotpUrl("");
    NoSecretNoKey();
    var h := MaybeHandle2Fa(cfg, o.url, f.certClickedAt, f.twoFaSubmitted, o.prompt);
    RefusedSecrets(cfg.mac, cfg.totpSecret, 0);
    TimesOfPrompt(h, o.prompt, RetryCert(f.certRetries, o));
  }

  lemma NoSecretNoKey()
    ensures KeyOf("") == None
  {
    assert Core("") == "" && PadToBlock("") == "";
  }

  /** The same for the enrolment form: while its answers are lost, every turn runs its script. */
  lemma {:induction false} LostFormsRepeat(mac: Mac, cur: string, end: Time, turns: seq<EnrollTurn>, secret: string)
    requires Contains(cur, CONFIGURE_TOTP_MARKER) && ChooseTotpSecret("", secret).Some?
    requires forall i | 0 <= i < |turns| :: turns[i] == LosingTurn(turns[i].at, secret) && turns[i].at < end
    ensures var e := EnrollLoop(mac, cur, false, end, turns);
            && !e.enrolled && e.result.EnrollCut?
            && Times(e.effects, RunsForm) == Times(e.effects, MissesForm) == |turns|
    decreases |turns|
  {
    hide Times, ChooseTotpSecret, CodeAt, Contains;
    NoTimes();
    if turns != [] {
      DerivedSecretWorks(mac, "", secret, turns[0].unix);
      var a := MaybeEnroll(mac, cur, false, turns[0]);
      assert a.ran.Some? && !a.ok && a.err.None?;
      var rest := turns[1..];
      assert forall i | 0 <= i < |rest| :: rest[i] == turns[i + 1];
      LostFormsRepeat(mac, cur, end, rest, secret);
      TimesOfTurn(a, turns[0], EnrollLoop(mac, cur, false, end, rest).effects);
    }
  }

  function LosingTurn(at: Time, secret: string): EnrollTurn {
    EnrollTurn(at, Unchanged, true, Read("", secret), 0, SendLost, Unchanged, false)
  }

  /** A run returns without an error only on the first tracked address that counts as
      authenticated. */
  lemma {:induction false} SuccessIsAuthenticated(cfg: Config, deadline: Time, f: Flags, script: seq<Observation>)
    ensures var r := Poll(cfg, deadline, f, script);
            r.verdict.Finished? ==>
              IsAuthenticatedUrl(r.verdict.url)
              && exists i | 0 <= i < |script| ::
                   && script[i].url == r.verdict.url && script[i].at < deadline
                   && forall j | 0 <= j < i :: !IsAuthenticatedUrl(script[j].url)
    decreases |script|
  {
    hide Iterate, IsAuthenticatedUrl, IsGovBrUrl;
    if script != [] && script[0].at < deadline {
      var it := Iterate(cfg, f, script[0]);
      IterationIsOrderly(cfg, f, script[0]);
      if it.verdict.Again? {
        var rest := script[1..];
        SuccessIsAuthenticated(cfg, deadline, it.flags, rest);
        assert forall i | 0 <= i < |rest| :: rest[i] == script[i + 1];
      }
    }
  }

  /** What the page must have shown for an effect on it, with the flags as they were. The script of
      the prompt runs only on a prompt that is there and either visible or met after more than a
      minute without progress on the SSO host, with the code of the configured secret. */
  ghost predicate Justified(cfg: Config, f: Flags, o: Observation, e: Effect) {
    match e
    case Restarted(outcome) => IsGovBrUrl(o.url) && outcome == o.navigation
    case EnrollEntered => IsConfigureTotpUrl(o.url)
    case FormRan(secret, code, answer) =>
      && IsConfigureTotpUrl(o.url)
      && exists t :: t in o.turns && t.submission == answer && CallsForForm(cfg.mac, t, secret, code)
    case CodeRan(code, answer) =>
      && o.prompt.evaluated && o.prompt.present && o.prompt.submission == answer && !f.twoFaSubmitted
      && (o.prompt.visible || (Contains(o.url, SSO_HOST) && o.prompt.now > f.certClickedAt + 60 * SECOND))
      && exists key :: KeyOf(cfg.totpSecret) == Some(key) && code == Code(cfg.mac, key, o.prompt.unix)
    case ClickRan(click) => f.certRetries < MAX_CERT_RETRIES && click == AnswerOf(o)
    case _ => true
  }

  /** A turn of the enrolment that found the form and read this secret, which is usable and gives
      this code. */
  ghost predicate CallsForForm(mac: Mac, t: EnrollTurn, secret: string, code: string) {
    && t.ready && t.reading.Read?
    && ChooseTotpSecret(t.reading.span, t.reading.hidden) == Some(secret) && CodeAt(mac, secret, t.unix) == Ok(code)
  }

  lemma {:induction false} RanInATurn(
    mac: Mac, cur: string, enrolled: bool, end: Time, turns: seq<EnrollTurn>, e: Effect)
    requires e.FormRan? && e in EnrollLoop(mac, cur, enrolled, end, turns).effects
    ensures exists t :: t in turns && t.submission == e.answer && CallsForForm(mac, t, e.secret, e.code)
    decreases |turns|
  {
    hide Contains, ChooseTotpSecret, CodeAt;
    var a := MaybeEnroll(mac, cur, enrolled, turns[0]);
    if e in FormEffects(a, turns[0]) {
      assert CallsForForm(mac, turns[0], e.secret, e.code);
    } else {
      RanInATurn(mac, cur, a.enrolled, end, turns[1..], e);
    }
  }

  lemma PromptMembers(cfg: Config, f: Flags, o: Observation, e: Effect)
    requires e in PromptAndCert(cfg, f, o).effects
    ensures var h := MaybeHandle2Fa(cfg, o.url, f.certClickedAt, f.twoFaSubmitted, o.prompt);
            || e == Slept
            || (h.ran.Some? && e == CodeRan(h.ran.value, o.prompt.submission))
            || (f.certRetries < MAX_CERT_RETRIES && e == ClickRan(AnswerOf(o)))
  {
    hide MaybeHandle2Fa, AnswerOf;
  }

  lemma PromptIsJustified(cfg: Config, f: Flags, o: Observation, e: Effect)
    requires e in PromptAndCert(cfg, f, o).effects
    ensures Justified(cfg, f, o, e)
    ensures e.CodeRan? || e.ClickRan? || e.Slept?
  {
    PromptMembers(cfg, f, o, e);
    hide IsGovBrUrl, IsConfigureTotpUrl, MaybeHandle2Fa, PromptAndCert, KeyOf, Code, Contains;
    WhenACodeIsTyped(cfg, o.url, f.certClickedAt, f.twoFaSubmitted, o.prompt);
  }

  lemma EnrollIsJustified(cfg: Config, f: Flags, o: Observation, e: Effect)
    requires !f.totpEnrolled && IsConfigureTotpUrl(o.url) && e in EnrollFirst(cfg, f, o).effects
    ensures Justified(cfg, f, o, e)
  {
    hide IsGovBrUrl, IsConfigureTotpUrl, EnrollLoop, PromptAndCert, CallsForForm, Code, KeyOf, Contains;
    var end := o.enrollStart + ENROLL_WINDOW;
    var run := EnrollLoop(cfg.mac, o.url, false, end, o.turns);
    EnrollReturns(cfg.mac, o.url, end, o.turns);
    if e in run.effects {
      NotAmong(run.effects, e);
      if e.FormRan? {
        RanInATurn(cfg.mac, o.url, false, end, o.turns, e);
      }
    }
  }

  lemma NotAmong(es: Effects, e: Effect)
    requires Times(es, RunsClick) == Times(es, RunsCode) == Times(es, Restarts) == 0
    requires e in es
    ensures !e.ClickRan? && !e.CodeRan? && !e.Restarted?
  {
    TimesAndMembers(es, RunsClick);
    TimesAndMembers(es, RunsCode);
    TimesAndMembers(es, Restarts);
    assert !RunsClick(e) && !RunsCode(e) && !Restarts(e);
  }

  lemma IterationIsJustified(cfg: Config, f: Flags, o: Observation, e: Effect)
    requires e in Iterate(cfg, f, o).effects
    ensures Justified(cfg, f, o, e)
  {
    hide IsAuthenticatedUrl, IsGovBrUrl, IsConfigureTotpUrl, EnrollFirst, PromptAndCert, CallsForForm, Code, KeyOf;
    hide Contains;
    if ShouldAttemptTotpEnroll(o.url, f.totpEnrolled) && e in EnrollFirst(cfg, f, o).effects {
      EnrollIsJustified(cfg, f, o, e);
    } else if e in PromptAndCert(cfg, f, o).effects {
      PromptIsJustified(cfg, f, o, e);
    }
  }

  /** The flags before observation `i`. */
  function FlagsAt(cfg: Config, f: Flags, script: seq<Observation>, i: nat): Flags
    requires i <= |script|
    decreases |script|
  {
    if i == 0 then f else FlagsAt(cfg, Iterate(cfg, f, script[0]).flags, script[1..], i - 1)
  }

  ghost predicate JustifiedAt(cfg: Config, deadline: Time, f: Flags, script: seq<Observation>, e: Effect, i: nat) {
    i < |script| && script[i].at < deadline && Justified(cfg, FlagsAt(cfg, f, script, i), script[i], e)
  }

  /** Whatever a run does to the page, some observation before the deadline called for it. */
  lemma {:induction false} RunIsJustified(cfg: Config, deadline: Time, f: Flags, script: seq<Observation>, e: Effect)
    requires e in Poll(cfg, deadline, f, script).effects
    ensures exists i :: JustifiedAt(cfg, deadline, f, script, e, i)
    decreases |script|
  {
    hide Iterate, Justified;
    var it := Iterate(cfg, f, script[0]);
    if e in it.effects {
      IterationIsJustified(cfg, f, script[0], e);
      assert JustifiedAt(cfg, deadline, f, script, e, 0);
    } else {
      RunIsJustified(cfg, deadline, it.flags, script[1..], e);
      var i: nat :| JustifiedAt(cfg, deadline, it.flags, script[1..], e, i);
      assert JustifiedAt(cfg, deadline, f, script, e, i + 1);
    }
  }

  // Time.

  /** The clock never runs back, and a pause of `d` takes at least `d`. */
  ghost predicate Paced(cfg: Config, f: Flags, script: seq<Observation>)
    decreases |script|
  {
    |script| >= 2 && Iterate(cfg, f, script[0]).verdict.Again? ==>
      var it := Iterate(cfg, f, script[0]);
      script[1].at >= script[0].at + it.slept && Paced(cfg, it.flags, script[1..])
  }

  /** A run sleeps at most as often as whole seconds, begun ones included, are left. */
  lemma {:induction false} SleepsFitWindow(cfg: Config, deadline: Time, f: Flags, script: seq<Observation>)
    requires script != [] && Paced(cfg, f, script)
    ensures var n := Times(Poll(cfg, deadline, f, script).effects, Sleeps);
            n == 0 || (n - 1) * SECOND < deadline - script[0].at
    decreases |script|
  {
    hide Iterate, IsAuthenticatedUrl, IsGovBrUrl, Times;
    NoTimes();
    if script[0].at < deadline {
      var it := Iterate(cfg, f, script[0]);
      IterationIsOrderly(cfg, f, script[0]);
      if it.verdict.Again? {
        TimesOfConcat(it.effects, Poll(cfg, deadline, it.flags, script[1..]).effects);
      }
      if it.verdict.Again? && |script| > 1 {
        SleepsFitWindow(cfg, deadline, it.flags, script[1..]);
      }
    }
  }

  /** A run that starts its window at its first observation has at most 180 sleeping iterations. */
  lemma AtMost180Sleeps(cfg: Config, start: Time, f: Flags, script: seq<Observation>)
    requires script != [] ==> script[0].at >= start && Paced(cfg, f, script)
    ensures Times(Poll(cfg, start + POLL_WINDOW, f, script).effects, Sleeps) <= 180
  {
    if script != [] {
      SleepsFitWindow(cfg, start + POLL_WINDOW, f, script);
    }
  }

  /** The same pacing for the turns of the enrolment: each ends with a pause of a second. */
  ghost predicate PacedTurns(turns: seq<EnrollTurn>) {
    |turns| >= 2 ==> turns[1].at >= turns[0].at + SECOND && PacedTurns(turns[1..])
  }

  lemma {:induction false} TriesFitWindow(mac: Mac, cur: string, enrolled: bool, end: Time, turns: seq<EnrollTurn>)
    requires turns != [] && PacedTurns(turns)
    ensures var n := Times(EnrollLoop(mac, cur, enrolled, end, turns).effects, Tries);
            n == 0 || (n - 1) * SECOND < end - turns[0].at
    decreases |turns|
  {
    hide MaybeEnroll, Times;
    NoTimes();
    if turns[0].at < end {
      var a := MaybeEnroll(mac, cur, enrolled, turns[0]);
      TimesOfTurn(a, turns[0], EnrollLoop(mac, cur, a.enrolled, end, turns[1..]).effects);
      if |turns| > 1 {
        TriesFitWindow(mac, cur, a.enrolled, end, turns[1..]);
      }
    }
  }

  /** The enrolment of an iteration starts its window before its first turn, and is paced. */
  ghost predicate PacedEnrollment(o: Observation) {
    PacedTurns(o.turns) && (o.turns != [] ==> o.turns[0].at >= o.enrollStart)
  }

  lemma IterationTries(cfg: Config, f: Flags, o: Observation)
    requires PacedEnrollment(o)
    ensures var es := Iterate(cfg, f, o).effects;
            Times(es, Tries) <= if Times(es, Enters) > 0 then 60 else 0
  {
    hide IsAuthenticatedUrl, IsGovBrUrl, IsConfigureTotpUrl, EnrollFirst, PromptAndCert, PacedEnrollment, Times;
    NoTimes();
    TimesOfOne(Restarted(o.navigation));
    TimesOfTwo(Slept, [Restarted(o.navigation)]);
    if !IsAuthenticatedUrl(o.url) {
      if ShouldAttemptTotpEnroll(o.url, f.totpEnrolled) {
        EnrollFirstTries(cfg, f, o);
      }
      PromptIsOrderly(cfg, f, o);
    }
  }

  lemma EnrollFirstTries(cfg: Config, f: Flags, o: Observation)
    requires PacedEnrollment(o) && !f.totpEnrolled && !IsAuthenticatedUrl(o.url)
    ensures var es := EnrollFirst(cfg, f, o).effects;
            Times(es, Enters) > 0 && Times(es, Tries) <= 60
  {
    hide EnrollLoop, PromptAndCert, Times, IsAuthenticatedUrl;
    NoTimes();
    var end := o.enrollStart + ENROLL_WINDOW;
    if o.turns != [] {
      TriesFitWindow(cfg.mac, o.url, false, end, o.turns);
    }
    NoTurns(cfg.mac, o.url, false, end);
    EnrollReturns(cfg.mac, o.url, end, o.turns);
    var e := EnrollLoop(cfg.mac, o.url, false, end, o.turns);
    TimesOfTwo(EnrollEntered, e.effects);
    TimesOfTwo(Slept, [EnrollEntered] + e.effects);
  }

  lemma NoTurns(mac: Mac, cur: string, enrolled: bool, end: Time)
    ensures EnrollLoop(mac, cur, enrolled, end, []) == EnrollRun(EnrollCut, enrolled, [])
  {}

  /** A run makes at most 60 attempts to enrol, all of them in its one enrolment. */
  lemma {:induction false} AtMost60Tries(cfg: Config, deadline: Time, f: Flags, script: seq<Observation>)
    requires forall i | 0 <= i < |script| :: PacedEnrollment(script[i])
    ensures Times(Poll(cfg, deadline, f, script).effects, Tries) <= if f.totpEnrolled then 0 else 60
    decreases |script|
  {
    hide Iterate, IsAuthenticatedUrl, IsGovBrUrl, PacedEnrollment, Times;
    NoTimes();
    if script != [] && script[0].at < deadline {
      var it := Iterate(cfg, f, script[0]);
      IterationIsOrderly(cfg, f, script[0]);
      IterationTries(cfg, f, script[0]);
      if it.verdict.Again? {
        assert forall i | 0 <= i < |script| - 1 :: PacedEnrollment(script[1..][i]);
        AtMost60Tries(cfg, deadline, it.flags, script[1..]);
        TimesOfConcat(it.effects, Poll(cfg, deadline, it.flags, script[1..]).effects);
      }
    }
  }

  // The secret.

  /** Enrolment never fails for want of a code, and what it sends is the code that any later
      login computes from the secret it hands over. */
  lemma EnrolledSecretWorks(mac: Mac, cur: string, enrolled: bool, o: EnrollTurn)
    ensures var a := MaybeEnroll(mac, cur, enrolled, o);
            && !(a.err.Some? && a.err.value.CodeFailed?)
            && (a.ran.Some? ==>
                  var (secret, code) := a.ran.value;
                  CodeAt(mac, secret, o.unix) == Ok(code) && forall later :: CodeAt(mac, secret, later).Ok?)
  {
    hide Contains, CodeAt, ChooseTotpSecret;
    if o.reading.Read? && ChooseTotpSecret(o.reading.span, o.reading.hidden).Some? {
      DerivedSecretWorks(mac, o.reading.span, o.reading.hidden, o.unix);
      forall t ensures CodeAt(mac, ChooseTotpSecret(o.reading.span, o.reading.hidden).value, t).Ok? {
        DerivedSecretWorks(mac, o.reading.span, o.reading.hidden, t);
      }
    }
  }

  /** The script of the prompt runs only on a prompt that is there, with a configured secret, and
      either visible or after more than a minute without progress on the SSO host; the code is that
      of the secret at that time. A prompt without a secret stops the run. */
  lemma WhenACodeIsTyped(cfg: Config, cur: string, clickedAt: Time, submitted: bool, o: Prompt)
    ensures var h := MaybeHandle2Fa(cfg, cur, clickedAt, submitted, o);
            && (h.ran.Some? ==>
                  && o.evaluated && o.present && cfg.totpSecret != ""
                  && (o.visible || (Contains(cur, SSO_HOST) && o.now > clickedAt + 60 * SECOND))
                  && (exists key :: KeyOf(cfg.totpSecret) == Some(key) && h.ran == Some(Code(cfg.mac, key, o.unix))))
            && (h.err == Some(SecretMissing) <==> !submitted && o.evaluated && o.present && cfg.totpSecret == "")
  {
    hide Contains, Normal, Code;
    if KeyOf(cfg.totpSecret).Some? {
      assert KeyOf(cfg.totpSecret) == Some(KeyOf(cfg.totpSecret).value);
    }
  }

  /** Without a configured secret no code is ever typed, whatever becomes of the answer. */
  lemma NoSecretNoCode(cfg: Config, deadline: Time, f: Flags, script: seq<Observation>, e: Effect)
    requires cfg.totpSecret == "" && e in Poll(cfg, deadline, f, script).effects
    ensures !e.CodeRan?
  {
    hide Iterate, Code, Contains;
    NoSecretNoKey();
    RunIsJustified(cfg, deadline, f, script, e);
  }
}
