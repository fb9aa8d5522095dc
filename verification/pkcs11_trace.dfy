/** Calls to a PKCS#11 module and the ledger of what they leave owned: contexts, initialised
    contexts and open sessions. A trace is accepted when every call in it was allowed. */
module Pkcs11Trace {
  import opened Wrappers
  import opened Bits

  /** Contexts are numbered in the order they are created. */
  type Ctx = nat

  type Handle = nat

  type Slot = nat

  /** A return code: success, a PKCS#11 code, or an error that is none. */
  datatype Rc = CkrOk | Ckr(code: nat) | Foreign

  datatype Class = PrivateKey | Certificate

  datatype ModuleCall =
    | New(created: Option<Ctx>)
    | Initialize(ctx: Ctx, rc: Rc)
    | GetSlotList(ctx: Ctx, rc: Rc, slots: seq<Slot>)
    | GetTokenInfo(ctx: Ctx, slot: Slot, rc: Rc, name: string)
    | OpenSession(ctx: Ctx, slot: Slot, rc: Rc, handle: Handle)
    | LoginUser(ctx: Ctx, sh: Handle, rc: Rc)
    | FindObjectsInit(ctx: Ctx, sh: Handle, class_: Class, rc: Rc)
    | FindObjects(ctx: Ctx, sh: Handle, rc: Rc, found: seq<Handle>)
    | FindObjectsFinal(ctx: Ctx, sh: Handle, rc: Rc)
    | GetAttributeValue(ctx: Ctx, sh: Handle, obj: Handle, rc: Rc, values: seq<bytes>)
    | SignInit(ctx: Ctx, sh: Handle, mech: nat, key: Handle, rc: Rc)
    | SignData(ctx: Ctx, sh: Handle, data: bytes, rc: Rc, sig: bytes)
    | CloseSession(ctx: Ctx, sh: Handle, rc: Rc)
    | Finalize(ctx: Ctx, rc: Rc)
    | Destroy(ctx: Ctx)

  type Trace = seq<ModuleCall>

  datatype Ledger = Ledger(next: Ctx, live: set<Ctx>, initialised: set<Ctx>, sessions: set<(Ctx, Handle)>)

  const NOTHING := Ledger(0, {}, {}, {})

  ghost predicate HasSession(l: Ledger, c: Ctx) {
    exists s :: s in l.sessions && s.0 == c
  }

  /** A context is used only between its creation and its destruction, a session only between
      opening and closing; a context is finalised only after its session is closed, and
      destroyed only when it is not initialised. */
  ghost predicate Allowed(l: Ledger, c: ModuleCall) {
    match c
    case New(created) => created.Some? ==> created.value == l.next
    case Initialize(x, _) => x in l.live && x !in l.initialised
    case GetSlotList(x, _, _) => x in l.initialised
    case GetTokenInfo(x, _, _, _) => x in l.initialised
    case OpenSession(x, _, _, _) => x in l.initialised && !HasSession(l, x)
    case Finalize(x, _) => x in l.initialised && !HasSession(l, x)
    case Destroy(x) => x in l.live && x !in l.initialised
    case _ => (c.ctx, c.sh) in l.sessions
  }

  /** Closing and finalising give the resource up whatever they return, as the callers do. */
  function Book(l: Ledger, c: ModuleCall): Ledger {
    match c
    case New(created) => if created.Some? then l.(next := l.next + 1, live := l.live + {created.value}) else l
    case Initialize(x, rc) => if rc.CkrOk? then l.(initialised := l.initialised + {x}) else l
    case OpenSession(x, _, rc, h) => if rc.CkrOk? then l.(sessions := l.sessions + {(x, h)}) else l
    case CloseSession(x, h, _) => l.(sessions := l.sessions - {(x, h)})
    case Finalize(x, _) => l.(initialised := l.initialised - {x})
    case Destroy(x) => l.(live := l.live - {x})
    case _ => l
  }

  /** The ledger after an accepted trace. */
  ghost function Replay(t: Trace): Option<Ledger> {
    if t == [] then Some(NOTHING)
    else
      var before := Replay(t[..|t| - 1]);
      if before.Some? && Allowed(before.value, t[|t| - 1]) then Some(Book(before.value, t[|t| - 1])) else None
  }

  /** Everything initialised is live, every session is on an initialised context, and no
      number at or above `next` was handed out. */
  ghost predicate Nested(l: Ledger) {
    && l.initialised <= l.live
    && (forall s | s in l.sessions :: s.0 in l.initialised)
    && (forall c | c in l.live :: c < l.next)
  }

  lemma {:induction false} ReplayNests(t: Trace)
    requires Replay(t).Some?
    ensures Nested(Replay(t).value)
  {
    if t != [] {
      var p := t[..|t| - 1];
      ReplayNests(p);
    }
  }

  lemma {:induction false} PrefixAccepted(t: Trace, n: nat)
    requires Replay(t).Some? && n <= |t|
    ensures Replay(t[..n]).Some?
    ensures n < |t| ==> Allowed(Replay(t[..n]).value, t[n])
                        && Replay(t[..n + 1]) == Some(Book(Replay(t[..n]).value, t[n]))
  {
    if n == |t| {
      assert t[..n] == t;
    } else {
      var p := t[..|t| - 1];
      if n == |t| - 1 {
        assert t[..n + 1] == t;
      } else {
        PrefixAccepted(p, n);
        assert p[..n] == t[..n] && p[..n + 1] == t[..n + 1];
      }
    }
  }

  // What acceptance means.

  ghost function Count(t: Trace, p: ModuleCall -> bool): nat {
    if t == [] then 0 else Count(t[..|t| - 1], p) + (if p(t[|t| - 1]) then 1 else 0)
  }

  predicate Creates(c: ModuleCall) { c.New? && c.created.Some? }
  predicate Destroys(c: ModuleCall) { c.Destroy? }
  predicate Initialises(c: ModuleCall) { c.Initialize? && c.rc.CkrOk? }
  predicate Finalises(c: ModuleCall) { c.Finalize? }
  predicate Opens(c: ModuleCall) { c.OpenSession? && c.rc.CkrOk? }
  predicate Closes(c: ModuleCall) { c.CloseSession? }

  lemma LiveBalances(l: Ledger, c: ModuleCall)
    requires Nested(l) && Allowed(l, c)
    ensures |Book(l, c).live| + One(Destroys(c)) == |l.live| + One(Creates(c))
  {
    hide HasSession;
    if Creates(c) { assert c.created.value !in l.live; }
  }

  lemma InitialisedBalances(l: Ledger, c: ModuleCall)
    requires Allowed(l, c)
    ensures |Book(l, c).initialised| + One(Finalises(c)) == |l.initialised| + One(Initialises(c))
  {
    hide HasSession;
  }

  lemma SessionsBalance(l: Ledger, c: ModuleCall)
    requires Allowed(l, c)
    ensures |Book(l, c).sessions| + One(Closes(c)) == |l.sessions| + One(Opens(c))
  {
    if Opens(c) { assert (c.ctx, c.handle) !in l.sessions; }
  }

  /** Conservation: in an accepted trace what was acquired and not released is exactly what
      the ledger holds. */
  lemma {:induction false} Conservation(t: Trace)
    requires Replay(t).Some?
    ensures var l := Replay(t).value;
            && Count(t, Creates) == Count(t, Destroys) + |l.live|
            && Count(t, Initialises) == Count(t, Finalises) + |l.initialised|
            && Count(t, Opens) == Count(t, Closes) + |l.sessions|
  {
    if t != [] {
      var p := t[..|t| - 1];
      Conservation(p);
      ReplayNests(p);
      LiveBalances(Replay(p).value, t[|t| - 1]);
      InitialisedBalances(Replay(p).value, t[|t| - 1]);
      SessionsBalance(Replay(p).value, t[|t| - 1]);
      hide Allowed, Book, Nested;
    }
  }

  function CtxOf(c: ModuleCall): Option<Ctx> {
    match c
    case New(_) => None
    case _ => Some(c.ctx)
  }

  /** No call uses a context after it was destroyed. */
  lemma NoUseAfterDestroy(t: Trace, i: nat, j: nat)
    requires Replay(t).Some? && i < j < |t| && t[i].Destroy?
    ensures CtxOf(t[j]) != Some(t[i].ctx)
  {
    var c := t[i].ctx;
    PrefixAccepted(t, i);
    ReplayNests(t[..i]);
    StaysDead(t, c, i + 1, j);
    PrefixAccepted(t, j);
    ReplayNests(t[..j]);
  }

  lemma {:induction false} StaysDead(t: Trace, c: Ctx, i: nat, j: nat)
    requires Replay(t).Some? && i <= j <= |t| && Replay(t[..i]).Some?
    requires c !in Replay(t[..i]).value.live && c < Replay(t[..i]).value.next
    ensures Replay(t[..j]).Some? && c !in Replay(t[..j]).value.live && c < Replay(t[..j]).value.next
  {
    if i < j {
      StaysDead(t, c, i, j - 1);
      PrefixAccepted(t, j - 1);
    }
  }

  /** A context that was destroyed after a session had been opened on it saw, in this order,
      the session closed, the context finalised, and only then its destruction. */
  lemma ReleaseOrder(t: Trace, i: nat, j: nat) returns (k: nat, m: nat)
    requires Replay(t).Some? && i < j < |t| && Opens(t[i]) && t[j] == Destroy(t[i].ctx)
    ensures i < k < m < j
    ensures t[k].CloseSession? && t[k].ctx == t[i].ctx && t[k].sh == t[i].handle
    ensures t[m].Finalize? && t[m].ctx == t[i].ctx
  {
    var c, h := t[i].ctx, t[i].handle;
    PrefixAccepted(t, i);
    PrefixAccepted(t, j);
    m := FinalisedBetween(t, c, i + 1, j);
    PrefixAccepted(t, m);
    k := ClosedBetween(t, c, h, i + 1, m);
  }

  lemma {:induction false} FinalisedBetween(t: Trace, c: Ctx, i: nat, j: nat) returns (m: nat)
    requires Replay(t).Some? && i <= j <= |t| && Replay(t[..i]).Some? && Replay(t[..j]).Some?
    requires c in Replay(t[..i]).value.initialised && c !in Replay(t[..j]).value.initialised
    ensures i <= m < j && t[m].Finalize? && t[m].ctx == c
  {
    PrefixAccepted(t, j - 1);
    if c in Replay(t[..j - 1]).value.initialised {
      m := j - 1;
    } else {
      m := FinalisedBetween(t, c, i, j - 1);
    }
  }

  lemma {:induction false} ClosedBetween(t: Trace, c: Ctx, h: Handle, i: nat, j: nat) returns (k: nat)
    requires Replay(t).Some? && i <= j <= |t| && Replay(t[..i]).Some? && Replay(t[..j]).Some?
    requires (c, h) in Replay(t[..i]).value.sessions && !HasSession(Replay(t[..j]).value, c)
    ensures i <= k < j && t[k].CloseSession? && t[k].ctx == c && t[k].sh == h
  {
    assert (c, h) !in Replay(t[..j]).value.sessions;
    k := ClosedBetween'(t, c, h, i, j);
  }

  lemma {:induction false} ClosedBetween'(t: Trace, c: Ctx, h: Handle, i: nat, j: nat) returns (k: nat)
    requires Replay(t).Some? && i <= j <= |t| && Replay(t[..i]).Some? && Replay(t[..j]).Some?
    requires (c, h) in Replay(t[..i]).value.sessions && (c, h) !in Replay(t[..j]).value.sessions
    ensures i <= k < j && t[k].CloseSession? && t[k].ctx == c && t[k].sh == h
  {
    PrefixAccepted(t, j - 1);
    if (c, h) in Replay(t[..j - 1]).value.sessions {
      k := j - 1;
    } else {
      k := ClosedBetween'(t, c, h, i, j - 1);
    }
  }
}
