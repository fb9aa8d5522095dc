/** The signer on a PKCS#11 token: one context, one session and the handles found at login,
    over a module that may return any code at any call. */
module Pkcs11Signer {
  import opened Wrappers
  import opened Bits
  import opened Text
  import BaseEncoding
  import Der
  import opened Pkcs11Trace

  const CKR_USER_ALREADY_LOGGED_IN := Ckr(0x100)

  const CKR_DEVICE_ERROR := Ckr(0x30)

  const CKR_SESSION_HANDLE_INVALID := Ckr(0xB3)

  const CKR_SESSION_CLOSED := Ckr(0xB0)

  const CKR_USER_NOT_LOGGED_IN := Ckr(0x101)

  const CKR_DEVICE_REMOVED := Ckr(0x32)

  const CKR_TOKEN_NOT_PRESENT := Ckr(0xE0)

  const CKR_GENERAL_ERROR := Ckr(0x05)

  /** isRetryablePKCS11Err */
  predicate IsRetryable(rc: Rc) {
    || rc == CKR_DEVICE_ERROR || rc == CKR_SESSION_HANDLE_INVALID || rc == CKR_SESSION_CLOSED
    || rc == CKR_USER_NOT_LOGGED_IN || rc == CKR_DEVICE_REMOVED || rc == CKR_TOKEN_NOT_PRESENT
    || rc == CKR_GENERAL_ERROR
  }

  /** The module: every answer is arbitrary, and every call must be allowed. */
  class Module {
    var next: Ctx
    ghost var trace: Trace
    ghost var signInits: nat
    ghost var loads: nat

    ghost predicate Valid()
      reads this
    {
      Replay(trace).Some? && next == Replay(trace).value.next
      && signInits == Count(trace, IsSignInit) && loads == Count(trace, IsNew)
    }

    ghost function Books(): Ledger
      requires Valid()
      reads this
    {
      Replay(trace).value
    }

    constructor ()
      ensures Valid() && trace == [] && Books() == NOTHING
    {
      next, trace, signInits, loads := 0, [], 0, 0;
    }

    ghost method Record(c: ModuleCall)
      requires Valid() && Allowed(Books(), c) && !IsNew(c) && !IsSignInit(c)
      modifies this`trace
      ensures Valid() && trace == old(trace) + [c] && Books() == Book(old(Books()), c)
    {
      trace := trace + [c];
      assert trace[..|trace| - 1] == old(trace);
    }

    method New() returns (ctx: Option<Ctx>)
      requires Valid()
      modifies this`trace, this`next, this`loads
      ensures Valid() && trace == old(trace) + [ModuleCall.New(ctx)]
      ensures Books() == Book(old(Books()), ModuleCall.New(ctx)) && loads == old(loads) + 1
      ensures ctx.Some? ==> ctx.value == old(next)
    {
      var loaded: bool := *;
      ctx := if loaded then Some(next) else None;
      next := if loaded then next + 1 else next;
      ghost var c := ModuleCall.New(ctx);
      trace, loads := trace + [c], loads + 1;
      assert trace[..|trace| - 1] == old(trace) && trace[|trace| - 1] == c && Allowed(old(Books()), c);
    }

    method Initialize(ctx: Ctx) returns (rc: Rc)
      requires Valid() && Allowed(Books(), ModuleCall.Initialize(ctx, CkrOk))
      modifies this`trace
      ensures Valid() && trace == old(trace) + [ModuleCall.Initialize(ctx, rc)]
      ensures Books() == Book(old(Books()), ModuleCall.Initialize(ctx, rc))
    {
      rc := *;
      Record(ModuleCall.Initialize(ctx, rc));
    }

    method GetSlotList(ctx: Ctx) returns (rc: Rc, slots: seq<Slot>)
      requires Valid() && ctx in Books().initialised
      modifies this`trace
      ensures Valid() && trace == old(trace) + [ModuleCall.GetSlotList(ctx, rc, slots)] && Books() == old(Books())
    {
      rc, slots := *, *;
      Record(ModuleCall.GetSlotList(ctx, rc, slots));
    }

    method GetTokenInfo(ctx: Ctx, slot: Slot) returns (rc: Rc, name: string)
      requires Valid() && ctx in Books().initialised
      modifies this`trace
      ensures Valid() && trace == old(trace) + [ModuleCall.GetTokenInfo(ctx, slot, rc, name)] && Books() == old(Books())
    {
      rc, name := *, *;
      Record(ModuleCall.GetTokenInfo(ctx, slot, rc, name));
    }

    method OpenSession(ctx: Ctx, slot: Slot) returns (rc: Rc, sh: Handle)
      requires Valid() && Allowed(Books(), ModuleCall.OpenSession(ctx, slot, CkrOk, 0))
      modifies this`trace
      ensures Valid() && trace == old(trace) + [ModuleCall.OpenSession(ctx, slot, rc, sh)]
      ensures Books() == Book(old(Books()), ModuleCall.OpenSession(ctx, slot, rc, sh))
    {
      rc, sh := *, *;
      Record(ModuleCall.OpenSession(ctx, slot, rc, sh));
    }

    method LoginUser(ctx: Ctx, sh: Handle) returns (rc: Rc)
      requires Valid() && (ctx, sh) in Books().sessions
      modifies this`trace
      ensures Valid() && trace == old(trace) + [ModuleCall.LoginUser(ctx, sh, rc)] && Books() == old(Books())
    {
      rc := *;
      Record(ModuleCall.LoginUser(ctx, sh, rc));
    }

    method FindObjectsInit(ctx: Ctx, sh: Handle, class_: Class) returns (rc: Rc)
      requires Valid() && (ctx, sh) in Books().sessions
      modifies this`trace
      ensures Valid() && trace == old(trace) + [ModuleCall.FindObjectsInit(ctx, sh, class_, rc)]
      ensures Books() == old(Books())
    {
      rc := *;
      Record(ModuleCall.FindObjectsInit(ctx, sh, class_, rc));
    }

    method FindObjects(ctx: Ctx, sh: Handle) returns (rc: Rc, found: seq<Handle>)
      requires Valid() && (ctx, sh) in Books().sessions
      modifies this`trace
      ensures Valid() && trace == old(trace) + [ModuleCall.FindObjects(ctx, sh, rc, found)] && Books() == old(Books())
    {
      rc, found := *, *;
      Record(ModuleCall.FindObjects(ctx, sh, rc, found));
    }

    method FindObjectsFinal(ctx: Ctx, sh: Handle) returns (rc: Rc)
      requires Valid() && (ctx, sh) in Books().sessions
      modifies this`trace
      ensures Valid() && trace == old(trace) + [ModuleCall.FindObjectsFinal(ctx, sh, rc)] && Books() == old(Books())
    {
      rc := *;
      Record(ModuleCall.FindObjectsFinal(ctx, sh, rc));
    }

    method GetAttributeValue(ctx: Ctx, sh: Handle, obj: Handle) returns (rc: Rc, values: seq<bytes>)
      requires Valid() && (ctx, sh) in Books().sessions
      modifies this`trace
      ensures Valid() && trace == old(trace) + [ModuleCall.GetAttributeValue(ctx, sh, obj, rc, values)]
      ensures Books() == old(Books())
    {
      rc, values := *, *;
      Record(ModuleCall.GetAttributeValue(ctx, sh, obj, rc, values));
    }

    method SignInit(ctx: Ctx, sh: Handle, mech: nat, key: Handle) returns (rc: Rc)
      requires Valid() && (ctx, sh) in Books().sessions
      modifies this`trace, this`signInits
      ensures Valid() && trace == old(trace) + [ModuleCall.SignInit(ctx, sh, mech, key, rc)] && Books() == old(Books())
      ensures signInits == old(signInits) + 1
    {
      rc := *;
      trace, signInits := trace + [ModuleCall.SignInit(ctx, sh, mech, key, rc)], signInits + 1;
      assert trace[..|trace| - 1] == old(trace);
    }

    method SignData(ctx: Ctx, sh: Handle, data: bytes) returns (rc: Rc, sig: bytes)
      requires Valid() && (ctx, sh) in Books().sessions
      modifies this`trace
      ensures Valid() && trace == old(trace) + [ModuleCall.SignData(ctx, sh, data, rc, sig)] && Books() == old(Books())
    {
      rc, sig := *, *;
      Record(ModuleCall.SignData(ctx, sh, data, rc, sig));
    }

    method CloseSession(ctx: Ctx, sh: Handle) returns (rc: Rc)
      requires Valid() && (ctx, sh) in Books().sessions
      modifies this`trace
      ensures Valid() && trace == old(trace) + [ModuleCall.CloseSession(ctx, sh, rc)]
      ensures Books() == Book(old(Books()), ModuleCall.CloseSession(ctx, sh, rc))
    {
      rc := *;
      Record(ModuleCall.CloseSession(ctx, sh, rc));
    }

    method Finalize(ctx: Ctx) returns (rc: Rc)
      requires Valid() && Allowed(Books(), ModuleCall.Finalize(ctx, CkrOk))
      modifies this`trace
      ensures Valid() && trace == old(trace) + [ModuleCall.Finalize(ctx, rc)]
      ensures Books() == Book(old(Books()), ModuleCall.Finalize(ctx, rc))
    {
      rc := *;
      Record(ModuleCall.Finalize(ctx, rc));
    }

    method Destroy(ctx: Ctx)
      requires Valid() && Allowed(Books(), ModuleCall.Destroy(ctx))
      modifies this`trace
      ensures Valid() && trace == old(trace) + [ModuleCall.Destroy(ctx)]
      ensures Books() == Book(old(Books()), ModuleCall.Destroy(ctx))
    {
      Record(ModuleCall.Destroy(ctx));
    }
  }

  predicate IsSignInit(c: ModuleCall) { c.SignInit? }

  predicate IsNew(c: ModuleCall) { c.New? }

  // What the calls of a slot search, a login and a signing attempt look like.

  /** The token answers with the wanted label, but for blanks at the end of either. */
  ghost predicate Bears(info: ModuleCall, want: string) {
    info.GetTokenInfo? && info.rc.CkrOk? && SameButBlanks(info.name, want)
  }

  /** `t` lists the slots and then asks them, in order, for their tokens. */
  ghost predicate AsksSlots(t: Trace, c: Ctx, slots: seq<Slot>) {
    && 0 < |t| <= |slots| + 1 && t[0] == GetSlotList(c, CkrOk, slots)
    && forall j | 0 < j < |t| :: t[j].GetTokenInfo? && t[j].ctx == c && t[j].slot == slots[j - 1]
  }

  /** With a label the slot is the first whose token bears it; without one it is that at the
      hinted index, or the first if there is no hint or no such index. */
  ghost predicate Chooses(t: Trace, c: Ctx, want: string, hint: Option<int>, slot: Slot) {
    exists slots ::
      && slots != [] && AsksSlots(t, c, slots)
      && if want == "" then |t| == 1 && slot == slots[if hint.Some? && 0 <= hint.value < |slots| then hint.value else 0]
         else |t| > 1 && slot == slots[|t| - 2] && Bears(t[|t| - 1], want)
              && forall j | 0 < j < |t| - 1 :: !Bears(t[j], want)
  }

  /** No slot: the list could not be read, is empty, or no token in it bears the label. */
  ghost predicate ChoosesNone(t: Trace, c: Ctx, want: string) {
    || (|t| == 1 && t[0].GetSlotList? && (!t[0].rc.CkrOk? || t[0].slots == []))
    || (want != "" && exists slots ::
          AsksSlots(t, c, slots) && |t| == |slots| + 1 && forall j | 0 < j < |t| :: !Bears(t[j], want))
  }

  /** What a successful login found. */
  datatype LoginRecord = LoginRecord(
    ctx: Ctx, search: Trace, slot: Slot, sh: Handle, loginRc: Rc,
    keys: seq<Handle>, certs: seq<Handle>, values: seq<bytes>)

  function FindCalls(c: Ctx, sh: Handle, class_: Class, found: seq<Handle>): Trace {
    [FindObjectsInit(c, sh, class_, CkrOk), FindObjects(c, sh, CkrOk, found), FindObjectsFinal(c, sh, CkrOk)]
  }

  function OpeningCalls(c: Ctx, search: Trace, slot: Slot, sh: Handle, loginRc: Rc): Trace {
    StartCalls(c) + search + [OpenSession(c, slot, CkrOk, sh), LoginUser(c, sh, loginRc)]
  }

  function ReadingCalls(c: Ctx, sh: Handle, keys: seq<Handle>, certs: seq<Handle>, rc: Rc, values: seq<bytes>): Trace
    requires certs != []
  {
    FindCalls(c, sh, PrivateKey, keys) + FindCalls(c, sh, Certificate, certs)
    + [GetAttributeValue(c, sh, certs[0], rc, values)]
  }

  /** The calls of a successful login, in order. */
  function LoginCalls(r: LoginRecord): Trace
    requires r.certs != []
  {
    OpeningCalls(r.ctx, r.search, r.slot, r.sh, r.loginRc) + ReadingCalls(r.ctx, r.sh, r.keys, r.certs, CkrOk, r.values)
  }

  ghost predicate Opened(r: LoginRecord, want: string, hint: Option<int>) {
    Chooses(r.search, r.ctx, want, hint, r.slot) && (r.loginRc == CkrOk || r.loginRc == Ckr(0x100))
  }

  ghost predicate Succeeds(r: LoginRecord, want: string, hint: Option<int>) {
    && Opened(r, want, hint)
    && r.keys != [] && r.certs != [] && r.values != [] && r.values[0] != []
  }

  // What the calls of a login that fails look like, and the error it fails with.

  function StartCalls(c: Ctx): Trace {
    [New(Some(c)), Initialize(c, CkrOk)]
  }

  function StopCalls(c: Ctx, rc: Rc): Trace {
    [Finalize(c, rc), Destroy(c)]
  }

  /** The calls that leave no context: the library does not load, or does not initialise. */
  ghost predicate NoContext(t: Trace, c: Ctx, e: LoginError) {
    || (t == [New(None)] && e == CannotLoad)
    || (exists rc: Rc :: !rc.CkrOk? && e == CallFailed(rc) && t == [New(Some(c)), Initialize(c, rc), Destroy(c)])
  }

  /** The error of a slot search that chose none. */
  function SearchError(search: Trace): LoginError {
    if search != [] && search[0].GetSlotList? && !search[0].rc.CkrOk? then CallFailed(search[0].rc) else NoSlot
  }

  /** The session does not open, or it does and the user's login fails. */
  ghost predicate UserSessionFails(t: Trace, c: Ctx, slot: Slot, e: LoginError) {
    || (exists rc: Rc, sh, rc2 ::
          !rc.CkrOk? && e == CallFailed(rc) && t == [OpenSession(c, slot, rc, sh)] + StopCalls(c, rc2))
    || (exists rc: Rc, sh, rc1, rc2 ::
          && !rc.CkrOk? && rc != Ckr(0x100) && e == CallFailed(rc)
          && t == [OpenSession(c, slot, CkrOk, sh), LoginUser(c, sh, rc)] + Released(c, sh, rc1, rc2))
  }

  /** A login that does not get as far as a session with the user logged in. */
  ghost predicate OpeningFails(t: Trace, want: string, hint: Option<int>, e: LoginError) {
    || (exists c :: NoContext(t, c, e))
    || (exists c, search, rc ::
          ChoosesNone(search, c, want) && e == SearchError(search) && t == StartCalls(c) + search + StopCalls(c, rc))
    || (exists c, search, slot, rest ::
          && Chooses(search, c, want, hint, slot) && UserSessionFails(rest, c, slot, e)
          && t == StartCalls(c) + search + rest)
  }

  /** A search that fails: it does not begin, or it was ended and either step failed, the first
      failure being the one reported, or nothing was found. */
  ghost predicate FindFails(t: Trace, c: Ctx, sh: Handle, class_: Class, e: LoginError) {
    || (exists rc: Rc :: !rc.CkrOk? && t == [FindObjectsInit(c, sh, class_, rc)] && e == CallFailed(rc))
    || (exists rc1, found, rc2 ::
          && t == [FindObjectsInit(c, sh, class_, CkrOk), FindObjects(c, sh, rc1, found), FindObjectsFinal(c, sh, rc2)]
          && if !rc1.CkrOk? then e == CallFailed(rc1)
             else if !rc2.CkrOk? then e == CallFailed(rc2)
             else found == [] && e == NoObject)
  }

  /** The key is not found, or the certificate is not, or its value cannot be read or is empty. */
  ghost predicate TokenFails(t: Trace, c: Ctx, sh: Handle, e: LoginError) {
    || FindFails(t, c, sh, PrivateKey, e)
    || (exists keys, find ::
          keys != [] && FindFails(find, c, sh, Certificate, e) && t == FindCalls(c, sh, PrivateKey, keys) + find)
    || (exists keys, certs, rc: Rc, values: seq<bytes> ::
          && keys != [] && certs != [] && t == ReadingCalls(c, sh, keys, certs, rc, values)
          && if rc.CkrOk? then e == EmptyCertificate && (values == [] || values[0] == []) else e == CallFailed(rc))
  }

  ghost predicate ReadingFails(t: Trace, c: Ctx, sh: Handle, e: LoginError) {
    exists reading, rc1, rc2 :: TokenFails(reading, c, sh, e) && t == reading + Released(c, sh, rc1, rc2)
  }

  /** The calls of a login that fails with `e`, from the first to the last, which give back
      whatever it had acquired. */
  ghost predicate LoginFails(t: Trace, want: string, hint: Option<int>, e: LoginError) {
    || OpeningFails(t, want, hint, e)
    || (exists r: LoginRecord, rest ::
          Opened(r, want, hint) && ReadingFails(rest, r.ctx, r.sh, e)
          && t == OpeningCalls(r.ctx, r.search, r.slot, r.sh, r.loginRc) + rest)
  }

  /** One signing attempt with the given handles: its calls, its code and its signature. */
  ghost predicate IsAttempt(t: Trace, c: Ctx, sh: Handle, key: Handle, mech: nat, data: bytes, rc: Rc, sig: bytes) {
    || (!rc.CkrOk? && sig == [] && t == [SignInit(c, sh, mech, key, rc)])
    || t == [SignInit(c, sh, mech, key, CkrOk), SignData(c, sh, data, rc, sig)]
  }

  // Algorithms.

  const CKM_RSA_PKCS := 0x01

  const CKM_SHA1_RSA_PKCS := 0x06

  const CKM_SHA256_RSA_PKCS := 0x40

  /** algorithmToMechanism: the mechanism, and whether the caller builds the DigestInfo. */
  function Mechanism(algorithm: string): Option<(nat, bool)> {
    if algorithm == "SHA256withRSA" then Some((CKM_SHA256_RSA_PKCS, false))
    else if algorithm == "SHA1withRSA" then Some((CKM_SHA1_RSA_PKCS, false))
    else if algorithm == "MD5withRSA" then Some((CKM_RSA_PKCS, true))
    else None
  }

  type Md5 = f: bytes -> bytes | forall x :: |f(x)| == 16
    witness (x: bytes) => seq(16, _ => 0)

  const MD5_DIGEST_INFO_PREFIX: bytes :=
    [0x30, 0x20, 0x30, 0x0c, 0x06, 0x08, 0x2a, 0x86, 0x48, 0x86, 0xf7, 0x0d, 0x02, 0x05, 0x05, 0x00, 0x04, 0x10]

  /** copy(out[at:], src) */
  method CopyInto(out: array<byte>, at: nat, src: bytes)
    requires at + |src| <= out.Length
    modifies out
    ensures forall j | 0 <= j < out.Length :: out[j] == if at <= j < at + |src| then src[j - at] else old(out[j])
  {
    for i := 0 to |src|
      invariant forall j | 0 <= j < out.Length :: out[j] == if at <= j < at + i then src[j - at] else old(out[j])
    {
      out[at + i] := src[i];
    }
  }

  /** md5DigestInfo */
  method Md5DigestInfo(md5: Md5, data: bytes) returns (info: bytes)
    ensures info == MD5_DIGEST_INFO_PREFIX + md5(data) && |info| == 34
  {
    var prefix, h := MD5_DIGEST_INFO_PREFIX, md5(data);
    assert |prefix| == 18;
    var out := new byte[|prefix| + |h|];
    CopyInto(out, 0, prefix);
    CopyInto(out, |prefix|, h);
    info := out[..];
  }

  /** The algorithm identifier of MD5: its object identifier and NULL parameters. */
  const MD5_ALGORITHM: bytes := [0x30, 0x0c, 0x06, 0x08, 0x2a, 0x86, 0x48, 0x86, 0xf7, 0x0d, 0x02, 0x05, 0x05, 0x00]

  /** The prefix and a hash make a DigestInfo: a SEQUENCE of the algorithm identifier and an
      OCTET STRING that holds the hash. */
  lemma DigestInfoIsDer(hash: bytes)
    requires |hash| == 16
    ensures Der.ReadSequenceOf(MD5_DIGEST_INFO_PREFIX + hash) == Some([MD5_ALGORITHM, [0x04, 0x10] + hash])
  {
    hide Der.ReadSequenceOf, Der.IsElement;
    var algorithm, octets := MD5_ALGORITHM, [0x04, 0x10] + hash;
    assert |algorithm| == 14 && algorithm[0] == 0x30 && algorithm[1] == 0x0c;
    Der.ShortElement(algorithm);
    Der.ShortElement(octets);
    Der.ReadPair(algorithm, octets);
    assert MD5_DIGEST_INFO_PREFIX == [0x30, 0x20] + algorithm + [0x04, 0x10];
    assert MD5_DIGEST_INFO_PREFIX + hash == [0x30] + [0x20] + (algorithm + octets);
  }

  /** What is handed to the token. */
  function DataToSign(md5: Md5, phrase: bytes, wrap: bool): bytes {
    if wrap then MD5_DIGEST_INFO_PREFIX + md5(phrase) else phrase
  }

  datatype LoginError = CannotLoad | CallFailed(rc: Rc) | NoSlot | NoObject | EmptyCertificate

  datatype SignError =
    | UnsupportedAlgorithm | NotLoggedIn | ReloginFailed(e: LoginError, first: Rc) | SigningFailed(rc: Rc)

  class Signer {
    const m: Module
    const label_: string
    const slotHint: Option<int>
    const md5: Md5
    var p: Option<Ctx>
    var sh: Handle
    var privKey: Handle
    var leafDer: bytes

    /** The signer owns exactly one context, initialisation and session while `p` is set, and
        nothing otherwise; its other fields are set and cleared with `p`. */
    ghost predicate Valid()
      reads this, m
    {
      && m.Valid()
      && Owns(m.Books())
      && (p.Some? ==> leafDer != [])
      && (p.None? ==> sh == 0 && privKey == 0 && leafDer == [])
    }

    ghost predicate Owns(l: Ledger)
      reads this
    {
      if p.Some? then l.live == {p.value} && l.initialised == {p.value} && l.sessions == {(p.value, sh)}
      else l.live == {} && l.initialised == {} && l.sessions == {}
    }

    constructor (m: Module, name: string, slotHint: Option<int>, md5: Md5)
      requires m.Valid() && m.Books() == NOTHING
      ensures Valid() && this.m == m && p == None
      ensures label_ == name && this.slotHint == slotHint && this.md5 == md5
    {
      this.m, label_, this.slotHint, this.md5 := m, name, slotHint, md5;
      p, sh, privKey, leafDer := None, 0, 0, [];
    }

    /** Over all calls ever made: what was acquired and not released is one context, one
        initialisation and one session while `p` is set, and nothing otherwise. */
    lemma Balance()
      requires Valid()
      ensures var one := if p.Some? then 1 else 0;
              && Count(m.trace, Creates) == Count(m.trace, Destroys) + one
              && Count(m.trace, Initialises) == Count(m.trace, Finalises) + one
              && Count(m.trace, Opens) == Count(m.trace, Closes) + one
    {
      Conservation(m.trace);
      hide Replay, Count;
    }

    /** teardown */
    method Teardown() returns (ghost calls: Trace)
      requires Valid()
      modifies this, m`trace
      ensures Valid() && p.None? && m.trace == old(m.trace) + calls
      ensures if old(p).None? then calls == []
              else exists rc1, rc2 :: calls == Released(old(p).value, old(sh), rc1, rc2)
    {
      calls := [];
      if p.None? {
        return;
      }
      var rc1 := m.CloseSession(p.value, sh);
      var rc2 := m.Finalize(p.value);
      m.Destroy(p.value);
      calls := Released(p.value, sh, rc1, rc2);
      p, sh, privKey, leafDer := None, 0, 0, [];
    }

    /** findSlot */
    method FindSlot(ctx: Ctx) returns (r: Result<Slot, LoginError>, ghost calls: Trace)
      requires m.Valid() && ctx in m.Books().initialised
      modifies m`trace
      ensures m.Valid() && m.Books() == old(m.Books()) && m.trace == old(m.trace) + calls
      ensures if r.Ok? then Chooses(calls, ctx, label_, slotHint, r.value) else ChoosesNone(calls, ctx, label_)
      ensures r.Err? ==> r.error == SearchError(calls)
      ensures r.Err? ==> r.error == if calls[0].rc.CkrOk? then NoSlot else CallFailed(calls[0].rc)
    {
      hide Replay, Count, Allowed, Book;
      var rc, slots := m.GetSlotList(ctx);
      calls := [GetSlotList(ctx, rc, slots)];
      if !rc.CkrOk? {
        return Err(CallFailed(rc)), calls;
      }
      if |slots| == 0 {
        return Err(NoSlot), calls;
      }
      if label_ != "" {
        var want := TrimTrailingBlanks(label_);
        for i := 0 to |slots|
          invariant m.Valid() && m.Books() == old(m.Books()) && m.trace == old(m.trace) + calls
          invariant |calls| == i + 1 && AsksSlots(calls, ctx, slots)
          invariant forall j | 0 < j < |calls| :: !Bears(calls[j], label_)
        {
          var infoRc, name := m.GetTokenInfo(ctx, slots[i]);
          calls := calls + [GetTokenInfo(ctx, slots[i], infoRc, name)];
          assert AsksSlots(calls, ctx, slots);
          SameTrimmed(name, label_);
          if infoRc.CkrOk? && TrimTrailingBlanks(name) == want {
            return Ok(slots[i]), calls;
          }
        }
        return Err(NoSlot), calls;
      }
      assert AsksSlots(calls, ctx, slots);
      if slotHint.Some? && 0 <= slotHint.value < |slots| {
        return Ok(slots[slotHint.value]), calls;
      }
      return Ok(slots[0]), calls;
    }

    /** findObject */
    method FindObject(ctx: Ctx, session: Handle, class_: Class)
      returns (r: Result<Handle, LoginError>, ghost found: seq<Handle>, ghost calls: Trace)
      requires m.Valid() && (ctx, session) in m.Books().sessions
      modifies m`trace
      ensures m.Valid() && m.Books() == old(m.Books()) && m.trace == old(m.trace) + calls
      ensures r.Ok? ==> found != [] && r.value == found[0] && calls == FindCalls(ctx, session, class_, found)
      ensures r.Err? ==> FindFails(calls, ctx, session, class_, r.error)
    {
      hide Replay, Count, Allowed, Book;
      found := [];
      var rc := m.FindObjectsInit(ctx, session, class_);
      calls := [FindObjectsInit(ctx, session, class_, rc)];
      if !rc.CkrOk? {
        return Err(CallFailed(rc)), found, calls;
      }
      var objs;
      rc, objs := m.FindObjects(ctx, session);
      found := objs;
      ghost var listed := FindObjects(ctx, session, rc, objs);
      var finRc := m.FindObjectsFinal(ctx, session);
      calls := [FindObjectsInit(ctx, session, class_, CkrOk), listed, FindObjectsFinal(ctx, session, finRc)];
      if !finRc.CkrOk? && rc.CkrOk? {
        rc := finRc;
      }
      if !rc.CkrOk? {
        return Err(CallFailed(rc)), found, calls;
      }
      if |objs| == 0 {
        return Err(NoObject), found, calls;
      }
      return Ok(objs[0]), found, calls;
    }

    /** Gives up a context that has no session. */
    method Abandon(ctx: Ctx) returns (ghost rc: Rc)
      requires m.Valid() && p.None? && Allowed(m.Books(), Finalize(ctx, CkrOk)) && m.Books().live == {ctx}
      modifies m`trace
      ensures m.Valid() && m.trace == old(m.trace) + StopCalls(ctx, rc)
      ensures m.Books() == old(m.Books()).(live := {}, initialised := old(m.Books()).initialised - {ctx})
    {
      rc := m.Finalize(ctx);
      m.Destroy(ctx);
    }

    /** Gives up a context and its session. */
    method AbandonSession(ctx: Ctx, session: Handle) returns (ghost rc1: Rc, ghost rc2: Rc)
      requires Acquired(ctx, session) && LoggedOut()
      modifies m`trace
      ensures Valid() && m.trace == old(m.trace) + Released(ctx, session, rc1, rc2)
    {
      rc1 := m.CloseSession(ctx, session);
      rc2 := Abandon(ctx);
    }

    /** The beginning that loginLocked and Available share: a new context, initialised, or
        nothing. */
    method StartContext() returns (ctx: Ctx, err: Option<LoginError>, ghost calls: Trace)
      requires m.Valid()
      modifies m`trace, m`next, m`loads
      ensures m.Valid() && m.loads == old(m.loads) + 1 && ctx == old(m.next) && m.trace == old(m.trace) + calls
      ensures err.None? ==>
                && calls == StartCalls(ctx) && ctx !in old(m.Books()).live
                && m.Books().live == old(m.Books()).live + {ctx}
                && m.Books().initialised == old(m.Books()).initialised + {ctx}
                && m.Books().sessions == old(m.Books()).sessions
      ensures err.Some? ==> m.Books() == old(m.Books()).(next := m.Books().next) && NoContext(calls, ctx, err.value)
    {
      ReplayNests(m.trace);
      hide Replay, Count;
      ctx := m.next;
      var created := m.New();
      calls := [New(created)];
      if created.None? {
        return ctx, Some(CannotLoad), calls;
      }
      var rc := m.Initialize(ctx);
      calls := [New(Some(ctx)), Initialize(ctx, rc)];
      if !rc.CkrOk? {
        m.Destroy(ctx);
        calls := [New(Some(ctx)), Initialize(ctx, rc), Destroy(ctx)];
        return ctx, Some(CallFailed(rc)), calls;
      }
      return ctx, None, calls;
    }

    /** A session on a slot, with the user logged in. */
    method OpenUserSession(ctx: Ctx, slot: Slot)
      returns (session: Handle, loginRc: Rc, err: Option<LoginError>, ghost calls: Trace)
      requires m.Valid() && LoggedOut()
      requires m.Books().live == {ctx} && m.Books().initialised == {ctx} && m.Books().sessions == {}
      modifies m`trace
      ensures m.Valid() && m.trace == old(m.trace) + calls
      ensures err.Some? ==> Owns(m.Books()) && UserSessionFails(calls, ctx, slot, err.value)
      ensures err.None? ==>
                && Acquired(ctx, session) && (loginRc == CkrOk || loginRc == CKR_USER_ALREADY_LOGGED_IN)
                && calls == [OpenSession(ctx, slot, CkrOk, session), LoginUser(ctx, session, loginRc)]
    {
      hide Replay, Count, Released, StopCalls;
      var rc;
      loginRc := CkrOk;
      rc, session := m.OpenSession(ctx, slot);
      if !rc.CkrOk? {
        ghost var stopRc := Abandon(ctx);
        calls := [OpenSession(ctx, slot, rc, session)] + StopCalls(ctx, stopRc);
        return session, loginRc, Some(CallFailed(rc)), calls;
      }
      loginRc := m.LoginUser(ctx, session);
      calls := [OpenSession(ctx, slot, CkrOk, session), LoginUser(ctx, session, loginRc)];
      if !loginRc.CkrOk? && loginRc != CKR_USER_ALREADY_LOGGED_IN {
        ghost var rc1, rc2 := AbandonSession(ctx, session);
        calls := calls + Released(ctx, session, rc1, rc2);
        return session, loginRc, Some(CallFailed(loginRc)), calls;
      }
      return session, loginRc, None, calls;
    }

    /** The first half of loginLocked: a new context, the slot, a session and the user's login. */
    method OpenLocked()
      returns (err: Option<LoginError>, ghost record: LoginRecord, ctx: Ctx, session: Handle, ghost calls: Trace)
      requires Valid() && p.None?
      modifies m`trace, m`next, m`loads
      ensures m.Valid() && m.loads == old(m.loads) + 1 && m.trace == old(m.trace) + calls
      ensures err.Some? ==> Owns(m.Books()) && OpeningFails(calls, label_, slotHint, err.value)
      ensures err.None? ==>
                && Acquired(ctx, session) && record.ctx == ctx && record.sh == session
                && Opened(record, label_, slotHint)
                && calls == OpeningCalls(record.ctx, record.search, record.slot, record.sh, record.loginRc)
    {
      hide Replay, Count, Chooses, ChoosesNone, NoContext, UserSessionFails, StartCalls, StopCalls;
      session := 0;
      record := LoginRecord(0, [], 0, 0, CkrOk, [], [], []);
      ctx, err, calls := StartContext();
      if err.Some? {
        return;
      }
      var slot, search := FindSlot(ctx);
      if slot.Err? {
        ghost var rc := Abandon(ctx);
        calls := StartCalls(ctx) + search + StopCalls(ctx, rc);
        err := Some(slot.error);
        return;
      }
      var loginRc;
      ghost var rest;
      session, loginRc, err, rest := OpenUserSession(ctx, slot.value);
      calls := StartCalls(ctx) + search + rest;
      if err.Some? {
        return;
      }
      record := LoginRecord(ctx, search, slot.value, session, loginRc, [], [], []);
    }

    /** The second half: the handles and the certificate. */
    method ReadToken(ctx: Ctx, session: Handle)
      returns (r: Result<(Handle, bytes), LoginError>,
               ghost keys: seq<Handle>, ghost certs: seq<Handle>, ghost values: seq<bytes>, ghost calls: Trace)
      requires Acquired(ctx, session) && LoggedOut()
      modifies m`trace
      ensures m.Valid() && m.Books() == old(m.Books()) && m.trace == old(m.trace) + calls
      ensures r.Err? ==> TokenFails(calls, ctx, session, r.error)
      ensures r.Ok? ==>
                && keys != [] && certs != [] && values != []
                && r.value == (keys[0], values[0]) && values[0] != []
                && calls == ReadingCalls(ctx, session, keys, certs, CkrOk, values)
    {
      hide Replay, Count, Allowed, Book, FindFails, FindCalls;
      values, certs := [], [];
      var key, cert;
      key, keys, calls := FindObject(ctx, session, PrivateKey);
      if key.Err? {
        return Err(key.error), keys, certs, values, calls;
      }
      ghost var find;
      cert, certs, find := FindObject(ctx, session, Certificate);
      calls := calls + find;
      if cert.Err? {
        return Err(cert.error), keys, certs, values, calls;
      }
      var rc, attrs := m.GetAttributeValue(ctx, session, cert.value);
      values := attrs;
      calls := ReadingCalls(ctx, session, keys, certs, rc, values);
      if !rc.CkrOk? {
        return Err(CallFailed(rc)), keys, certs, values, calls;
      }
      if |attrs| == 0 || |attrs[0]| == 0 {
        return Err(EmptyCertificate), keys, certs, values, calls;
      }
      return Ok((key.value, attrs[0])), keys, certs, values, calls;
    }

    /** Between the two halves: one context and its session, not yet in the fields. */
    ghost predicate Acquired(ctx: Ctx, session: Handle)
      reads this, m
    {
      m.Valid() && m.Books().live == {ctx} && m.Books().initialised == {ctx} && m.Books().sessions == {(ctx, session)}
    }

    ghost predicate LoggedOut()
      reads this
    {
      p.None? && sh == 0 && privKey == 0 && leafDer == []
    }

    /** loginLocked. Wherever reading the token fails, the session is given up. */
    method LoginLocked() returns (err: Option<LoginError>, ghost record: LoginRecord, ghost calls: Trace)
      requires Valid() && p.None?
      modifies this, m`trace, m`next, m`loads
      ensures Valid() && (err.None? <==> p.Some?) && m.loads == old(m.loads) + 1 && m.trace == old(m.trace) + calls
      ensures err.None? ==> Holds(record) && calls == LoginCalls(record)
      ensures err.Some? ==> LoginFails(calls, label_, slotHint, err.value)
    {
      hide Replay, Count, Allowed, Book, Chooses, OpeningCalls, ReadingCalls, OpeningFails, TokenFails, Released;
      var ctx, session;
      err, record, ctx, session, calls := OpenLocked();
      if err.Some? {
        return;
      }
      var found;
      ghost var keys, certs, values, reading;
      found, keys, certs, values, reading := ReadToken(ctx, session);
      if found.Err? {
        ghost var rc1, rc2 := AbandonSession(ctx, session);
        ghost var rest := reading + Released(ctx, session, rc1, rc2);
        assert ReadingFails(rest, ctx, session, found.error);
        calls := calls + rest;
        return Some(found.error), record, calls;
      }
      record := record.(keys := keys, certs := certs, values := values);
      calls := calls + reading;
      p, sh, privKey, leafDer := Some(ctx), session, found.value.0, found.value.1;
      return None, record, calls;
    }

    /** The fields hold what this login found. */
    ghost predicate Holds(record: LoginRecord)
      reads this
    {
      Succeeds(record, label_, slotHint) && Fields() == SessionOf(record)
    }

    ghost function Fields(): Session
      reads this
    {
      Session(p, sh, privKey, leafDer)
    }

    /** Login. `released` and `calls` are the calls of the teardown and of the new login. */
    method Login()
      returns (err: Option<LoginError>, ghost record: LoginRecord, ghost released: Trace, ghost calls: Trace)
      requires Valid()
      modifies this, m`trace, m`next, m`loads
      ensures Valid() && (err.None? <==> p.Some?) && m.loads == old(m.loads) + 1
      ensures m.trace == old(m.trace) + released + calls
      ensures if old(p).None? then released == []
              else exists rc1, rc2 :: released == Released(old(p).value, old(sh), rc1, rc2)
      ensures err.None? ==> Holds(record) && calls == LoginCalls(record)
      ensures err.Some? ==> LoginFails(calls, label_, slotHint, err.value)
    {
      hide Replay, Count, Allowed, Book, Owns, Chooses, Opened, LoginCalls, LoginFails, Released;
      released := Teardown();
      err, record, calls := LoginLocked();
    }

    /** doSign */
    method DoSign(mech: nat, data: bytes) returns (rc: Rc, sig: bytes, ghost calls: Trace)
      requires Valid() && p.Some?
      modifies m`trace, m`signInits
      ensures Valid() && m.trace == old(m.trace) + calls && m.signInits == old(m.signInits) + 1
      ensures IsAttempt(calls, p.value, sh, privKey, mech, data, rc, sig)
    {
      sig := [];
      rc := m.SignInit(p.value, sh, mech, privKey);
      calls := [SignInit(p.value, sh, mech, privKey, rc)];
      if !rc.CkrOk? {
        return;
      }
      rc, sig := m.SignData(p.value, sh, data);
      calls := calls + [SignData(p.value, sh, data, rc, sig)];
    }

    /** What Sign does once an attempt failed with a retryable code: a new login and, if it
        succeeds, a second attempt with what it found. */
    method Retry(mech: nat, data: bytes)
      returns (r: Result<(Rc, bytes), LoginError>, ghost record: LoginRecord, ghost attempt: Trace, ghost calls: Trace)
      requires Valid() && p.Some?
      modifies this, m`trace, m`next, m`loads, m`signInits
      ensures Valid() && m.loads == old(m.loads) + 1 && m.trace == old(m.trace) + calls
      ensures r.Err? ==> p.None? && m.signInits == old(m.signInits)
                         && exists c1, c2, login :: calls == Released(old(p).value, old(sh), c1, c2) + login
                                                    && LoginFails(login, label_, slotHint, r.error)
      ensures r.Ok? ==> p.Some? && Holds(record) && m.signInits == old(m.signInits) + 1
                        && IsAttempt(attempt, p.value, sh, privKey, mech, data, r.value.0, r.value.1)
                        && exists c1, c2 ::
                             calls == Released(old(p).value, old(sh), c1, c2) + LoginCalls(record) + attempt
    {
      hide Replay, Count, Allowed, Book, Owns, Chooses, Opened, LoginCalls, Released, IsAttempt, LoginFails;
      attempt := [];
      ghost var released := Teardown();
      var err;
      ghost var login;
      err, record, login := LoginLocked();
      calls := released + login;
      if err.Some? {
        return Err(err.value), record, attempt, calls;
      }
      var rc, sig;
      rc, sig, attempt := DoSign(mech, data);
      calls := released + login + attempt;
      return Ok((rc, sig)), record, attempt, calls;
    }

    /** Sign. Nothing happens without a known algorithm and an open session; with them `run`
        tells what did. */
    method Sign(phrase: bytes, algorithm: string) returns (r: Result<string, SignError>, ghost run: SignRun)
      requires Valid()
      modifies this, m`trace, m`next, m`loads, m`signInits
      ensures Valid()
      ensures Mechanism(algorithm).None? ==> r == Err(UnsupportedAlgorithm)
      ensures Mechanism(algorithm).Some? && old(p).None? ==> r == Err(NotLoggedIn)
      ensures Mechanism(algorithm).None? || old(p).None? ==> m.trace == old(m.trace) && Fields() == old(Fields())
      ensures Mechanism(algorithm).Some? && old(p).Some? ==>
                && run.pre == old(Fields()) && run.post == Fields() && m.trace == old(m.trace) + run.calls
                && run.mech == Mechanism(algorithm).value.0
                && run.data == DataToSign(md5, phrase, Mechanism(algorithm).value.1)
                && IsSignRun(run, label_, slotHint, r)
                && m.signInits == old(m.signInits) + (if run.Retried() && p.Some? then 2 else 1)
                && m.loads == old(m.loads) + (if run.Retried() then 1 else 0)
      ensures r == Err(UnsupportedAlgorithm) <==> !IsSupported(algorithm)
      ensures IsSupported(algorithm) && old(p).None? ==> r == Err(NotLoggedIn)
      ensures IsSupported(algorithm) && old(p).Some? ==>
                SignsAs(md5, run.calls, phrase, algorithm) && Concludes(run.calls, r)
    {
      hide MD5_DIGEST_INFO_PREFIX, IsSupported, Mechanism, SignsAs, Concludes;
      SupportedHasMechanism(algorithm);
      run := SignRun(Fields(), 0, [], [], CkrOk, LoginRecord(0, [], 0, 0, CkrOk, [], [], []), [], [], Fields());
      var mechanism := Mechanism(algorithm);
      if mechanism.None? {
        r := Err(UnsupportedAlgorithm);
        return;
      }
      var (mech, wrap) := mechanism.value;
      var data := phrase;
      if wrap {
        data := Md5DigestInfo(md5, phrase);
      }
      if p.None? {
        r := Err(NotLoggedIn);
        return;
      }
      hide Replay, Count, IsSignRun;
      r, run := SignLocked(mech, data);
      SignsAsAsked(run, label_, slotHint, r, md5, phrase, algorithm);
    }

    /** The part of Sign under the lock, on an open session. */
    method SignLocked(mech: nat, data: bytes) returns (r: Result<string, SignError>, ghost run: SignRun)
      requires Valid() && p.Some?
      modifies this, m`trace, m`next, m`loads, m`signInits
      ensures Valid() && IsSignRun(run, label_, slotHint, r)
      ensures run.pre == old(Fields()) && run.post == Fields() && run.mech == mech && run.data == data
      ensures m.trace == old(m.trace) + run.calls
      ensures m.signInits == old(m.signInits) + (if run.Retried() && p.Some? then 2 else 1)
      ensures m.loads == old(m.loads) + (if run.Retried() then 1 else 0)
    {
      hide Replay, Count, Allowed, Book, Owns, Chooses, Opened, Succeeds, LoginCalls, Released, IsAttempt, LoginFails;
      var rc, sig;
      ghost var first, second, record;
      rc, sig, first := DoSign(mech, data);
      run := SignRun(Fields(), mech, data, first, rc, LoginRecord(0, [], 0, 0, CkrOk, [], [], []), [], first, Fields());
      assert Attempted(first, run.pre, mech, data, rc, sig);
      if !rc.CkrOk? && IsRetryable(rc) {
        var again;
        ghost var more;
        again, record, second, more := Retry(mech, data);
        run := run.(record := record, second := second, calls := first + more, post := Fields());
        if again.Err? {
          r := Err(ReloginFailed(again.error, rc));
          return;
        }
        rc, sig := again.value.0, again.value.1;
        assert Attempted(second, run.post, mech, data, rc, sig);
      }
      if !rc.CkrOk? {
        r := Err(SigningFailed(rc));
        return;
      }
      r := Ok(BaseEncoding.Encode(BaseEncoding.Base64, sig));
    }

    /** Available: whether a token, or the labelled one, can be seen. The signer is untouched,
        and what was taken for the look is given back. */
    method Available() returns (yes: bool, ghost calls: Trace)
      requires Valid()
      modifies m`trace, m`next, m`loads
      ensures Valid() && m.Books() == old(m.Books()).(next := m.Books().next)
      ensures yes ==> exists c, slot, rc ::
                        m.trace == old(m.trace) + Look(c, calls, rc) && Chooses(calls, c, label_, None, slot)
      ensures !yes ==>
                || (m.trace == old(m.trace) + calls && exists c, e :: NoContext(calls, c, e))
                || (exists c, rc :: m.trace == old(m.trace) + Look(c, calls, rc) && ChoosesNone(calls, c, label_))
    {
      calls := [];
      hide Replay, Count, Chooses, ChoosesNone, NoContext;
      var ctx, err;
      ctx, err, calls := StartContext();
      if err.Some? {
        return false, calls;
      }
      yes, calls := SeesToken(ctx);
      var last := m.Finalize(ctx);
      m.Destroy(ctx);
      assert m.trace == old(m.trace) + Look(ctx, calls, last);
    }

    /** The look itself, between initialising the context and finalising it. */
    method SeesToken(ctx: Ctx) returns (yes: bool, ghost calls: Trace)
      requires m.Valid() && ctx in m.Books().initialised
      modifies m`trace
      ensures m.Valid() && m.Books() == old(m.Books()) && m.trace == old(m.trace) + calls
      ensures yes ==> exists slot :: Chooses(calls, ctx, label_, None, slot)
      ensures !yes ==> ChoosesNone(calls, ctx, label_)
    {
      hide Replay, Count, Allowed, Book;
      var rc, slots := m.GetSlotList(ctx);
      calls := [GetSlotList(ctx, rc, slots)];
      if !rc.CkrOk? || |slots| == 0 {
        return false, calls;
      }
      assert AsksSlots(calls, ctx, slots);
      if label_ == "" {
        assert Chooses(calls, ctx, label_, None, slots[0]);
        return true, calls;
      }
      for i := 0 to |slots|
        invariant m.Valid() && m.Books() == old(m.Books()) && m.trace == old(m.trace) + calls
        invariant |calls| == i + 1 && AsksSlots(calls, ctx, slots)
        invariant forall j | 0 < j < |calls| :: !Bears(calls[j], label_)
      {
        var infoRc, name := m.GetTokenInfo(ctx, slots[i]);
        calls := calls + [GetTokenInfo(ctx, slots[i], infoRc, name)];
        assert AsksSlots(calls, ctx, slots);
        SameTrimmed(name, label_);
        if infoRc.CkrOk? && TrimTrailingBlanks(name) == TrimTrailingBlanks(label_) {
          assert Chooses(calls, ctx, label_, None, slots[i]);
          return true, calls;
        }
      }
      return false, calls;
    }
  }

  /** The fields of the signer. */
  datatype Session = Session(p: Option<Ctx>, sh: Handle, privKey: Handle, leafDer: bytes)

  /** A Sign on an open session: the session before, what is signed, the first attempt and its
      code, the login after a retryable one, the second attempt, all calls, the session after. */
  datatype SignRun = SignRun(
    pre: Session, mech: nat, data: bytes, first: Trace, rc1: Rc, record: LoginRecord, second: Trace,
    calls: Trace, post: Session)
  {
    /** General error, device error, device removed, session closed, session handle invalid,
        token not present, user not logged in. */
    predicate Retried() {
      rc1.Ckr? && rc1.code in {0x05, 0x30, 0x32, 0xB0, 0xB3, 0xE0, 0x101}
    }
  }

  /** The first attempt uses the session that was open; unless its code is retryable it is the
      only one and the session stays. Otherwise there is one new login: if it fails everything
      is released, and if not, one more attempt with the handles it found decides. */
  ghost predicate IsSignRun(run: SignRun, want: string, hint: Option<int>, r: Result<string, SignError>) {
    && (exists sig :: Attempted(run.first, run.pre, run.mech, run.data, run.rc1, sig)
                      && (!run.Retried() ==> r == Answer(run.rc1, sig)))
    && (!run.Retried() ==> run.calls == run.first && run.post == run.pre)
    && (run.Retried() ==> run.first <= run.calls)
    && (run.Retried() && run.post.p.None? ==>
          && run.post == LOGGED_OUT && r.Err? && r.error.ReloginFailed? && r.error.first == run.rc1 && run.pre.p.Some?
          && (exists c1, c2, login ::
                && run.calls == run.first + (Released(run.pre.p.value, run.pre.sh, c1, c2) + login)
                && LoginFails(login, want, hint, r.error.e)))
    && (run.Retried() && run.post.p.Some? ==>
          && Succeeds(run.record, want, hint) && run.post == SessionOf(run.record)
          && (exists rc2, sig :: Attempted(run.second, run.post, run.mech, run.data, rc2, sig) && r == Answer(rc2, sig))
          && run.pre.p.Some?
          && (exists c1, c2 ::
                var again := Released(run.pre.p.value, run.pre.sh, c1, c2) + LoginCalls(run.record) + run.second;
                run.calls == run.first + again))
  }

  // What a Sign hands to the token, and what it returns.

  predicate IsSupported(algorithm: string) {
    algorithm == "SHA256withRSA" || algorithm == "SHA1withRSA" || algorithm == "MD5withRSA"
  }

  lemma SupportedHasMechanism(algorithm: string)
    ensures IsSupported(algorithm) <==> Mechanism(algorithm).Some?
  {}

  /** Every signature asked for is one with the mechanism of the algorithm: the token hashes the
      phrase itself, or for MD5 signs a DigestInfo of its hash. */
  ghost predicate SignsAs(md5: Md5, calls: Trace, phrase: bytes, algorithm: string) {
    && (forall c | c in calls && c.SignInit? ::
          && (algorithm == "SHA256withRSA" ==> c.mech == 0x40)
          && (algorithm == "SHA1withRSA" ==> c.mech == 0x06)
          && (algorithm == "MD5withRSA" ==> c.mech == 0x01))
    && (forall c | c in calls && c.SignData? ::
          if algorithm == "MD5withRSA"
          then Der.ReadSequenceOf(c.data) == Some([MD5_ALGORITHM, [0x04, 0x10] + md5(phrase)])
          else c.data == phrase)
  }

  /** The signature returned is what the last call gave, in base64; an error is that of the last
      call. */
  ghost predicate Concludes(calls: Trace, r: Result<string, SignError>) {
    && calls != []
    && var last := calls[|calls| - 1];
       match r
       case Ok(text) =>
         last.SignData? && last.rc.CkrOk? && BaseEncoding.Decode(BaseEncoding.Base64, text) == Some(last.sig)
       case Err(SigningFailed(rc)) => (last.SignInit? || last.SignData?) && last.rc == rc && !rc.CkrOk?
       case _ => true
  }

  ghost predicate NoSigning(t: Trace) {
    forall c | c in t :: !c.SignInit? && !c.SignData?
  }

  lemma SearchSignsNothing(search: Trace, c: Ctx, want: string, hint: Option<int>, slot: Slot)
    ensures Chooses(search, c, want, hint, slot) ==> NoSigning(search)
    ensures ChoosesNone(search, c, want) ==> NoSigning(search)
  {
    hide SameButBlanks;
  }

  lemma LoginSignsNothing(r: LoginRecord, want: string, hint: Option<int>)
    requires Succeeds(r, want, hint)
    ensures NoSigning(LoginCalls(r))
  {
    SearchSignsNothing(r.search, r.ctx, want, hint, r.slot);
    hide Chooses;
  }

  lemma ReadingSignsNothing(t: Trace, c: Ctx, sh: Handle, e: LoginError)
    requires ReadingFails(t, c, sh, e)
    ensures NoSigning(t)
  {
    var reading, rc1, rc2 :| TokenFails(reading, c, sh, e) && t == reading + Released(c, sh, rc1, rc2);
    FoundSignsNothing(reading, c, sh, e);
    hide TokenFails;
  }

  lemma FoundSignsNothing(t: Trace, c: Ctx, sh: Handle, e: LoginError)
    requires TokenFails(t, c, sh, e)
    ensures NoSigning(t)
  {
    forall find, class_ | FindFails(find, c, sh, class_, e) ensures NoSigning(find) {
      SearchEndsUnsigned(find, c, sh, class_, e);
    }
    hide FindFails;
  }

  lemma SearchEndsUnsigned(t: Trace, c: Ctx, sh: Handle, class_: Class, e: LoginError)
    requires FindFails(t, c, sh, class_, e)
    ensures NoSigning(t)
  {}

  lemma NoSigningConcat(a: Trace, b: Trace)
    ensures NoSigning(a + b) <==> NoSigning(a) && NoSigning(b)
  {
    assert forall c :: c in a + b <==> c in a || c in b;
  }

  lemma OpeningSignsNothing(t: Trace, want: string, hint: Option<int>, e: LoginError)
    requires OpeningFails(t, want, hint, e)
    ensures NoSigning(t)
  {
    hide Chooses, ChoosesNone, UserSessionFails, NoContext, NoSigning;
    StartsAndStops();
    if c :| NoContext(t, c, e) {
      NoContextSignsNothing(t, c, e);
    } else if c, search, rc :| ChoosesNone(search, c, want) && e == SearchError(search)
                               && t == StartCalls(c) + search + StopCalls(c, rc) {
      SearchSignsNothing(search, c, want, hint, 0);
      NoSigningConcat(StartCalls(c), search);
      NoSigningConcat(StartCalls(c) + search, StopCalls(c, rc));
    } else {
      var c, search, slot, rest :| Chooses(search, c, want, hint, slot) && UserSessionFails(rest, c, slot, e)
                                   && t == StartCalls(c) + search + rest;
      SearchSignsNothing(search, c, want, hint, slot);
      SessionSignsNothing(rest, c, slot, e);
      NoSigningConcat(StartCalls(c), search);
      NoSigningConcat(StartCalls(c) + search, rest);
    }
  }

  lemma StartsAndStops()
    ensures forall c :: NoSigning(StartCalls(c))
    ensures forall c, rc :: NoSigning(StopCalls(c, rc))
  {}

  lemma NoContextSignsNothing(t: Trace, c: Ctx, e: LoginError)
    requires NoContext(t, c, e)
    ensures NoSigning(t)
  {}

  lemma SessionSignsNothing(t: Trace, c: Ctx, slot: Slot, e: LoginError)
    requires UserSessionFails(t, c, slot, e)
    ensures NoSigning(t)
  {}

  lemma FailureSignsNothing(t: Trace, want: string, hint: Option<int>, e: LoginError)
    requires LoginFails(t, want, hint, e)
    ensures NoSigning(t)
  {
    hide Chooses, ReadingFails, OpeningFails, NoSigning;
    if OpeningFails(t, want, hint, e) {
      OpeningSignsNothing(t, want, hint, e);
    } else {
      var r: LoginRecord, rest :| Opened(r, want, hint) && ReadingFails(rest, r.ctx, r.sh, e)
                     && t == OpeningCalls(r.ctx, r.search, r.slot, r.sh, r.loginRc) + rest;
      OpenedSignsNothing(r, want, hint);
      ReadingSignsNothing(rest, r.ctx, r.sh, e);
      NoSigningConcat(OpeningCalls(r.ctx, r.search, r.slot, r.sh, r.loginRc), rest);
    }
  }

  lemma OpenedSignsNothing(r: LoginRecord, want: string, hint: Option<int>)
    requires Opened(r, want, hint)
    ensures NoSigning(OpeningCalls(r.ctx, r.search, r.slot, r.sh, r.loginRc))
  {
    SearchSignsNothing(r.search, r.ctx, want, hint, r.slot);
    hide Chooses;
  }

  /** All signing calls of a trace use this mechanism and these data. */
  ghost predicate SignsOnly(t: Trace, mech: nat, data: bytes) {
    forall c | c in t :: (c.SignInit? ==> c.mech == mech) && (c.SignData? ==> c.data == data)
  }

  lemma SignsOnlyConcat(a: Trace, b: Trace, mech: nat, data: bytes)
    requires SignsOnly(a, mech, data) && SignsOnly(b, mech, data)
    ensures SignsOnly(a + b, mech, data)
  {
    assert forall c :: c in a + b <==> c in a || c in b;
  }

  lemma NothingSignsOnly(t: Trace, mech: nat, data: bytes)
    requires NoSigning(t)
    ensures SignsOnly(t, mech, data)
  {}

  lemma AttemptSignsOnly(t: Trace, s: Session, mech: nat, data: bytes, rc: Rc, sig: bytes)
    requires Attempted(t, s, mech, data, rc, sig)
    ensures SignsOnly(t, mech, data)
  {}

  lemma RunSignsOnly(run: SignRun, want: string, hint: Option<int>, r: Result<string, SignError>)
    requires IsSignRun(run, want, hint, r)
    ensures SignsOnly(run.calls, run.mech, run.data)
  {
    assert SignsOnly([], run.mech, run.data);
    hide LoginFails, LoginCalls, Opened, SignsOnly, NoSigning, Attempted, Answer;
    var sig :| Attempted(run.first, run.pre, run.mech, run.data, run.rc1, sig);
    AttemptSignsOnly(run.first, run.pre, run.mech, run.data, run.rc1, sig);
    if run.Retried() && run.post.p.None? {
      var c1, c2, login :| run.calls == run.first + (Released(run.pre.p.value, run.pre.sh, c1, c2) + login)
                           && LoginFails(login, want, hint, r.error.e);
      FailureSignsNothing(login, want, hint, r.error.e);
      RestSignsOnly(run, Released(run.pre.p.value, run.pre.sh, c1, c2), login, []);
    } else if run.Retried() {
      var c1, c2 :| var again := Released(run.pre.p.value, run.pre.sh, c1, c2) + LoginCalls(run.record) + run.second;
                    run.calls == run.first + again;
      LoginSignsNothing(run.record, want, hint);
      var rc2, sig2 :| Attempted(run.second, run.post, run.mech, run.data, rc2, sig2) && r == Answer(rc2, sig2);
      AttemptSignsOnly(run.second, run.post, run.mech, run.data, rc2, sig2);
      RestSignsOnly(run, Released(run.pre.p.value, run.pre.sh, c1, c2), LoginCalls(run.record), run.second);
    }
  }

  lemma RestSignsOnly(run: SignRun, released: Trace, login: Trace, second: Trace)
    requires SignsOnly(run.first, run.mech, run.data) && SignsOnly(second, run.mech, run.data) && NoSigning(login)
    requires exists c, sh, rc1, rc2 :: released == Released(c, sh, rc1, rc2)
    ensures SignsOnly(run.first + (released + login), run.mech, run.data)
    ensures SignsOnly(run.first + (released + login + second), run.mech, run.data)
  {
    assert NoSigning(released);
    hide NoSigning, SignsOnly;
    NothingSignsOnly(released, run.mech, run.data);
    NothingSignsOnly(login, run.mech, run.data);
    SignsOnlyConcat(released, login, run.mech, run.data);
    SignsOnlyConcat(released + login, second, run.mech, run.data);
    SignsOnlyConcat(run.first, released + login, run.mech, run.data);
    SignsOnlyConcat(run.first, released + login + second, run.mech, run.data);
  }

  lemma RunConcludes(run: SignRun, want: string, hint: Option<int>, r: Result<string, SignError>)
    requires IsSignRun(run, want, hint, r)
    ensures Concludes(run.calls, r)
  {
    hide LoginFails, LoginCalls, Succeeds, BaseEncoding.Encode, BaseEncoding.Decode;
    forall sig
      ensures BaseEncoding.Decode(BaseEncoding.Base64, BaseEncoding.Encode(BaseEncoding.Base64, sig)) == Some(sig) {
      BaseEncoding.DecodeEncode(BaseEncoding.Base64, sig);
    }
  }

  lemma SignsAsAsked(
    run: SignRun, want: string, hint: Option<int>, r: Result<string, SignError>,
    md5: Md5, phrase: bytes, algorithm: string)
    requires IsSignRun(run, want, hint, r) && Mechanism(algorithm).Some?
    requires run.mech == Mechanism(algorithm).value.0
    requires run.data == DataToSign(md5, phrase, Mechanism(algorithm).value.1)
    ensures SignsAs(md5, run.calls, phrase, algorithm) && Concludes(run.calls, r)
  {
    hide IsSignRun, Concludes, Der.ReadSequenceOf, MD5_DIGEST_INFO_PREFIX, MD5_ALGORITHM;
    RunSignsOnly(run, want, hint, r);
    RunConcludes(run, want, hint, r);
    DigestInfoIsDer(md5(phrase));
  }

  /** The object identifier of MD5 is 1.2.840.113549.2.5, section 8.19 of ITU-T X.690. */
  lemma Md5ObjectIdentifier()
    ensures var id: seq<int> := MD5_ALGORITHM;
            && id[..5] == [0x30, 12, 0x06, 8, 1 * 40 + 2] && id[10..] == [2, 5, 0x05, 0]
            && (id[5] - 128) * 128 + id[6] == 840 && id[6] < 128
            && (id[7] - 128) * 16384 + (id[8] - 128) * 128 + id[9] == 113549 && id[9] < 128
  {}

  const LOGGED_OUT := Session(None, 0, 0, [])

  function SessionOf(r: LoginRecord): Session
    requires r.keys != [] && r.values != []
  {
    Session(Some(r.ctx), r.sh, r.keys[0], r.values[0])
  }

  ghost predicate Attempted(t: Trace, s: Session, mech: nat, data: bytes, rc: Rc, sig: bytes) {
    s.p.Some? && IsAttempt(t, s.p.value, s.sh, s.privKey, mech, data, rc, sig)
  }

  /** What an attempt that is not retried makes Sign return. */
  function Answer(rc: Rc, sig: bytes): Result<string, SignError> {
    if rc.CkrOk? then Ok(BaseEncoding.Encode(BaseEncoding.Base64, sig)) else Err(SigningFailed(rc))
  }

  /** A look at the slots in a context of its own. */
  function Look(c: Ctx, calls: Trace, rc: Rc): Trace {
    StartCalls(c) + calls + StopCalls(c, rc)
  }

  function Released(c: Ctx, sh: Handle, rc1: Rc, rc2: Rc): Trace {
    [CloseSession(c, sh, rc1), Finalize(c, rc2), Destroy(c)]
  }
}
