/** The shared state of the login manager and its two critical sections: what a caller does
    when it takes the lock, and what the winner does when its login has returned. */
module LoginCache {
  import opened Wrappers
  import opened Clock

  /** Go's zero time, the first of January of the year 1. */
  const ZERO_TIME: Time := -62_135_596_800 * SECOND

  /** From the first of January of the year 1 to that of 1970 there are 1969 years of 365 days and
      477 leap days. */
  lemma ZeroTimeIsYearOne()
    ensures ZERO_TIME == -(1969 * 365 + 1969 / 4 - 1969 / 100 + 1969 / 400) * 24 * 60 * 60 * SECOND
  {}

  const DEFAULT_REFRESH_MARGIN := 60 * SECOND

  const DEFAULT_TTL := 300 * SECOND

  /** An error of the login itself, or of the context of a caller that stopped waiting. */
  datatype Error = LoginFailed(cause: string) | WaitCancelled

  /** What loginFn returned. */
  type LoginResult = Result<string, string>

  /** The triple of an `inflight` record. */
  datatype Outcome = Outcome(bearer: string, exp: Time, err: Option<Error>)

  datatype Flight = Open | Closed(outcome: Outcome)

  /** The refresh margin, and the expiry that is parsed from a bearer. */
  datatype Config = Config(refreshMargin: int, parseExp: string -> Option<Time>)

  /** NewManager's choice of margin */
  function MarginOf(refreshMargin: int): int {
    if refreshMargin <= 0 then DEFAULT_REFRESH_MARGIN else refreshMargin
  }

  /** `flights` are all logins ever started; `current` is the one `m.flight` points to. */
  datatype Shared = Shared(bearer: string, expiresAt: Time, flights: seq<Flight>, current: Option<nat>)

  const EMPTY := Shared("", ZERO_TIME, [], None)

  /** How a caller leaves the first critical section. */
  datatype Entry = Hit(bearer: string, exp: Time) | Won(flight: nat) | Attached(flight: nat)

  /** isFresh */
  predicate IsFresh(cfg: Config, expiresAt: Time, now: Time) {
    expiresAt != ZERO_TIME && now < expiresAt - cfg.refreshMargin
  }

  predicate Serves(cfg: Config, s: Shared, force: bool, now: Time) {
    !force && s.bearer != "" && IsFresh(cfg, s.expiresAt, now)
  }

  function EntryOf(cfg: Config, s: Shared, force: bool, now: Time): Entry {
    if Serves(cfg, s, force, now) then Hit(s.bearer, s.expiresAt)
    else if s.current.None? then Won(|s.flights|)
    else Attached(s.current.value)
  }

  function AfterEntry(s: Shared, e: Entry): Shared {
    if e.Won? then s.(flights := s.flights + [Open], current := Some(|s.flights|)) else s
  }

  /** The expiry given to a bearer obtained at `now`. */
  function ExpiryOf(cfg: Config, bearer: string, now: Time): Time {
    var parsed := cfg.parseExp(bearer);
    if parsed.Some? then parsed.value else now + DEFAULT_TTL
  }

  function OutcomeOf(cfg: Config, result: LoginResult, now: Time): Outcome {
    match result
    case Ok(b) => Outcome(b, ExpiryOf(cfg, b, now), None)
    case Err(cause) => Outcome("", ZERO_TIME, Some(LoginFailed(cause)))
  }

  function AfterLogin(cfg: Config, s: Shared, flight: nat, result: LoginResult, now: Time): Shared
    requires flight < |s.flights|
  {
    var o := OutcomeOf(cfg, result, now);
    var closed := s.(flights := s.flights[flight := Closed(o)], current := None);
    if result.Ok? then closed.(bearer := o.bearer, expiresAt := o.exp) else closed
  }

  // The Go structures.

  class Inflight {
    var done: bool
    var bearer: string
    var exp: Time
    var err: Option<Error>

    constructor ()
      ensures !done && bearer == "" && exp == ZERO_TIME
    {
      done, bearer, exp, err := false, "", ZERO_TIME, None;
    }

    ghost function View(): Flight
      reads this
    {
      if done then Closed(Outcome(bearer, exp, err)) else Open
    }

    /** What the winner and every attached caller return once the login is over. */
    method Share() returns (b: string, e: Time, fromCache: bool, error: Option<Error>)
      requires done
      ensures View() == Closed(Outcome(b, e, error)) && !fromCache
    {
      b, e, fromCache, error := bearer, exp, false, err;
    }
  }

  class LoginManager {
    const cfg: Config
    var bearer: string
    var expiresAt: Time
    var flight: Inflight?

    /** Every login ever started, in order. */
    ghost var started: seq<Inflight>

    ghost predicate Valid()
      reads this, started
    {
      && (forall i, j | 0 <= i < j < |started| :: started[i] != started[j])
      && (forall i | 0 <= i < |started| :: !started[i].done ==> started[i] == flight)
      && (forall i | 0 <= i < |started| :: !started[i].done ==>
            started[i].bearer == "" && started[i].exp == ZERO_TIME)
      && (flight != null ==> |started| > 0 && flight == started[|started| - 1] && !flight.done)
    }

    ghost function View(): Shared
      reads this, started
    {
      Shared(bearer, expiresAt, Views(started), if flight == null || started == [] then None else Some(|started| - 1))
    }

    static ghost function Views(fs: seq<Inflight>): (vs: seq<Flight>)
      reads fs
      ensures |vs| == |fs| && forall i | 0 <= i < |fs| :: vs[i] == fs[i].View()
    {
      if fs == [] then [] else Views(fs[..|fs| - 1]) + [fs[|fs| - 1].View()]
    }

    /** NewManager */
    constructor (refreshMargin: int, parseExp: string -> Option<Time>)
      ensures Valid() && View() == EMPTY && cfg == Config(MarginOf(refreshMargin), parseExp)
      ensures cfg.refreshMargin == if refreshMargin > 0 then refreshMargin else 60 * SECOND
    {
      cfg := Config(if refreshMargin <= 0 then DEFAULT_REFRESH_MARGIN else refreshMargin, parseExp);
      bearer, expiresAt, flight, started := "", ZERO_TIME, null, [];
    }

    /** The winner's new flight. */
    method StartFlight() returns (f: Inflight)
      requires Valid() && flight == null
      modifies this`flight, this`started
      ensures Valid() && fresh(f) && started == old(started) + [f]
      ensures View() == AfterEntry(old(View()), Won(|old(started)|))
    {
      f := new Inflight();
      flight := f;
      started := started + [f];
      assert started[..|started| - 1] == old(started);
      assert Views(started) == old(Views(started)) + [Open];
    }

    /** The first critical section of GetBearer. A null `f` means that the cache served the
        caller; otherwise `f` is the login to run (`won`) or to wait for. */
    method Enter(force: bool, now: Time) returns (b: string, exp: Time, f: Inflight?, won: bool, ghost entry: Entry)
      requires Valid()
      modifies this`flight, this`started
      ensures Valid()
      ensures won ==> f != null && fresh(f) && started == old(started) + [f]
      ensures !won ==> started == old(started)
      ensures entry == EntryOf(cfg, old(View()), force, now) && View() == AfterEntry(old(View()), entry)
      ensures f == null <==> !force && bearer != "" && expiresAt != ZERO_TIME && now < expiresAt - cfg.refreshMargin
      ensures f == null ==> b == bearer && exp == expiresAt
      ensures match entry
              case Hit(hb, he) => f == null && b == hb && exp == he && !won
              case Won(i) => i < |started| && f == started[i] && won
              case Attached(i) => i < |started| && f == started[i] && !won
    {
      b, exp, won := "", ZERO_TIME, false;
      entry := EntryOf(cfg, View(), force, now);
      if !force && bearer != "" && expiresAt != ZERO_TIME && now < expiresAt - cfg.refreshMargin {
        b, exp, f := bearer, expiresAt, null;
        return;
      }
      if flight == null {
        f := StartFlight();
        won := true;
      } else {
        f := flight;
      }
    }

    /** The second critical section, run by the winner with the result of its login. */
    method Complete(f: Inflight, result: LoginResult, now: Time)
      requires Valid() && f == flight
      modifies this, f
      ensures Valid() && started == old(started)
      ensures View() == AfterLogin(cfg, old(View()), |started| - 1, result, now)
      ensures f.done
    {
      hide Views;
      flight := null;
      if result.Ok? {
        var parsed := cfg.parseExp(result.value);
        var exp := if parsed.Some? then parsed.value else now + DEFAULT_TTL;
        bearer := result.value;
        expiresAt := exp;
        f.bearer := result.value;
        f.exp := exp;
      }
      f.err := if result.Ok? then None else Some(LoginFailed(result.error));
      f.done := true;
      assert Views(started) == old(Views(started))[|started| - 1 := f.View()];
    }

    /** Snapshot */
    method Snapshot(now: Time) returns (hasBearer: bool, exp: Time)
      requires Valid()
      ensures hasBearer <==> EntryOf(cfg, View(), false, now) == Hit(bearer, expiresAt)
      ensures hasBearer <==> bearer != "" && expiresAt != ZERO_TIME && now < expiresAt - cfg.refreshMargin
      ensures exp == expiresAt
    {
      hasBearer := bearer != "" && expiresAt != ZERO_TIME && now < expiresAt - cfg.refreshMargin;
      exp := expiresAt;
    }
  }
}
