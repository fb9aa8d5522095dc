/** The signer that picks the first available of several backends at each call, and records
    when the identity behind the choice changes. */
module DualSigner {
  import opened Wrappers

  /** What a backend answers during one call: whether it is available, and the subject of its
      identity if that can be read. */
  datatype Backend = Backend(available: bool, subject: Option<string>)

  datatype Switch = Switch(from: string, to: string)

  /** The first available backend. */
  ghost predicate IsActive(backends: seq<Backend>, i: nat) {
    i < |backends| && backends[i].available && forall j | 0 <= j < i :: !backends[j].available
  }

  /** The switches in a history of subjects: the adjacent pairs of a subject that is not empty
      and a different one. */
  function Switches(seen: seq<string>): seq<Switch> {
    if |seen| < 2 then []
    else
      var a, b := seen[|seen| - 2], seen[|seen| - 1];
      Switches(seen[..|seen| - 1]) + (if a != "" && a != b then [Switch(a, b)] else [])
  }

  /** The switch, if any, that one more subject adds. */
  function NewSwitch(seen: seq<string>, curr: string): seq<Switch> {
    if Last(seen) != "" && Last(seen) != curr then [Switch(Last(seen), curr)] else []
  }

  function Last(seen: seq<string>): string {
    if seen == [] then "" else seen[|seen| - 1]
  }

  lemma OneMoreSwitch(seen: seq<string>, curr: string)
    ensures Switches(seen + [curr]) == Switches(seen) + NewSwitch(seen, curr)
  {
    assert (seen + [curr])[..|seen|] == seen;
  }

  class Dual {
    const size: nat
    var lastSubject: string

    /** Subjects read, in the order their callers held the lock. */
    ghost var seen: seq<string>

    /** Switches that a caller found under the lock and has not yet written to the log. */
    ghost var pending: multiset<Switch>

    /** Switches in the log. */
    ghost var emitted: seq<Switch>

    /** Found switches are those of the history, each found once and logged at most once. */
    ghost predicate Valid()
      reads this
    {
      lastSubject == Last(seen) && multiset(emitted) + pending == multiset(Switches(seen))
    }

    constructor (size: nat)
      ensures Valid() && seen == [] && emitted == [] && pending == multiset{} && this.size == size
    {
      this.size := size;
      lastSubject, seen, pending, emitted := "", [], multiset{}, [];
    }

    /** The critical section of resolveActive. */
    method SwapSubject(curr: string) returns (prev: string)
      requires Valid()
      modifies this
      ensures Valid() && prev == Last(old(seen)) && seen == old(seen) + [curr] && emitted == old(emitted)
      ensures pending == old(pending)
                         + (if prev != "" && prev != curr then multiset{Switch(prev, curr)} else multiset{})
    {
      OneMoreSwitch(seen, curr);
      hide Switches;
      prev := lastSubject;
      lastSubject := curr;
      seen := seen + [curr];
      if prev != "" && prev != curr {
        pending := pending + multiset{Switch(prev, curr)};
      }
    }

    /** audit.IdentitySwitch, by a caller that has left the lock */
    method Emit(s: Switch)
      requires Valid() && s in pending
      modifies this`pending, this`emitted
      ensures Valid() && emitted == old(emitted) + [s] && pending == old(pending) - multiset{s}
    {
      emitted := emitted + [s];
      pending := pending - multiset{s};
    }

    /** What resolveActive does with a subject it could read. */
    method Track(curr: string)
      requires Valid()
      modifies this
      ensures Valid() && seen == old(seen) + [curr] && pending == old(pending)
      ensures emitted == old(emitted) + NewSwitch(old(seen), curr)
    {
      hide Switches;
      var prev := SwapSubject(curr);
      if prev != "" && prev != curr {
        Emit(Switch(prev, curr));
      }
    }

    /** resolveActive, run without another call in between. */
    method ResolveActive(backends: seq<Backend>) returns (r: Option<nat>)
      requires Valid() && |backends| == size
      modifies this
      ensures Valid() && pending == old(pending)
      ensures r.Some? ==> IsActive(backends, r.value)
      ensures r.None? ==> forall i | 0 <= i < size :: !backends[i].available
      ensures if r.Some? && backends[r.value].subject.Some?
              then var curr := backends[r.value].subject.value;
                   seen == old(seen) + [curr] && emitted == old(emitted) + NewSwitch(old(seen), curr)
              else seen == old(seen) && emitted == old(emitted)
    {
      hide Switches, NewSwitch;
      for i := 0 to size
        invariant forall j | 0 <= j < i :: !backends[j].available
      {
        if backends[i].available {
          if backends[i].subject.Some? {
            Track(backends[i].subject.value);
          }
          return Some(i);
        }
      }
      return None;
    }

    /** Available */
    method Available(backends: seq<Backend>) returns (yes: bool)
      requires |backends| == size
      ensures yes <==> exists i :: IsActive(backends, i)
    {
      for i := 0 to size
        invariant forall j | 0 <= j < i :: !backends[j].available
      {
        if backends[i].available {
          assert IsActive(backends, i);
          return true;
        }
      }
      return false;
    }
  }

  // What the audit history says.

  /** A switch is in the history exactly when two subjects read one after the other say so. */
  lemma {:induction false} SwitchesAreAdjacentPairs(seen: seq<string>, s: Switch)
    ensures s in Switches(seen) <==>
              exists i | 0 < i < |seen| :: seen[i - 1] == s.from && seen[i] == s.to && s.from != "" && s.from != s.to
  {
    if |seen| >= 2 {
      var p := seen[..|seen| - 1];
      SwitchesAreAdjacentPairs(p, s);
      assert forall i | 0 <= i < |p| :: p[i] == seen[i];
    }
  }

  /** Subjects with repetitions taken out. */
  function Distinct(seen: seq<string>): seq<string> {
    if |seen| < 2 then seen
    else
      var rest := Distinct(seen[..|seen| - 1]);
      if seen[|seen| - 2] == seen[|seen| - 1] then rest else rest + [seen[|seen| - 1]]
  }

  /** Each switch begins where the one before it ended. */
  ghost predicate IsChain(ws: seq<Switch>) {
    forall k | 0 < k < |ws| :: ws[k - 1].to == ws[k].from
  }

  /** With subjects that are not empty the switches are exactly the steps from one identity to
      the next: the history of identities can be read off them, and they form a chain. */
  lemma {:induction false} SwitchesTellTheHistory(seen: seq<string>)
    requires forall i | 0 <= i < |seen| :: seen[i] != ""
    requires seen != []
    ensures var ws, d := Switches(seen), Distinct(seen);
            && |d| == |ws| + 1 && d[0] == seen[0] && d[|ws|] == Last(seen)
            && (forall k | 0 <= k < |ws| :: ws[k].from == d[k] && ws[k].to == d[k + 1])
            && IsChain(ws)
  {
    if |seen| >= 2 {
      SwitchesTellTheHistory(seen[..|seen| - 1]);
    }
  }

  /** Subject `i` was recorded as a switch from the one before it. */
  predicate Recorded(seen: seq<string>, i: nat) {
    0 < i < |seen| && seen[i - 1] != "" && seen[i - 1] != seen[i]
  }

  /** A switch to an empty subject was recorded. */
  ghost predicate LosesSubject(seen: seq<string>) {
    exists i: nat :: Recorded(seen, i) && seen[i] == ""
  }

  /** After a switch to an empty subject another one was recorded. */
  ghost predicate ResumesAfterLoss(seen: seq<string>) {
    exists i: nat, j: nat :: i < j && Recorded(seen, i) && seen[i] == "" && Recorded(seen, j)
  }

  /** What one more subject changes. */
  lemma OneMoreSubject(p: seq<string>, b: string)
    requires p != []
    ensures var switched := Last(p) != "" && Last(p) != b;
            && (LosesSubject(p + [b]) <==> LosesSubject(p) || (switched && b == ""))
            && (ResumesAfterLoss(p + [b]) <==> ResumesAfterLoss(p) || (switched && LosesSubject(p)))
  {
    var s := p + [b];
    assert forall i: nat | i < |p| :: Recorded(s, i) <==> Recorded(p, i);
    assert Recorded(s, |p|) <==> Last(p) != "" && Last(p) != b;
    if i: nat :| Recorded(p, i) && p[i] == "" {
      assert Recorded(s, i) && s[i] == "";
    }
    if i: nat, j: nat :| i < j && Recorded(p, i) && p[i] == "" && Recorded(p, j) {
      assert Recorded(s, i) && s[i] == "" && Recorded(s, j);
    }
  }

  /** The last switch leads to the last subject, or it was the switch to an empty one. */
  lemma {:induction false} LastSwitch(seen: seq<string>)
    ensures Switches(seen) == [] ==> !LosesSubject(seen)
    ensures var ws := Switches(seen);
            ws != [] && ws[|ws| - 1].to != "" ==> ws[|ws| - 1].to == Last(seen)
    ensures var ws := Switches(seen);
            ws != [] && !ResumesAfterLoss(seen) ==> (ws[|ws| - 1].to == "" <==> LosesSubject(seen))
  {
    if |seen| >= 2 {
      var p, b := seen[..|seen| - 1], seen[|seen| - 1];
      assert seen == p + [b];
      OneMoreSubject(p, b);
      LastSwitch(p);
      hide LosesSubject, ResumesAfterLoss;
    }
  }

  lemma ChainOneMore(ws: seq<Switch>, w: Switch)
    ensures IsChain(ws + [w]) <==> IsChain(ws) && (ws == [] || ws[|ws| - 1].to == w.from)
  {
    var all := ws + [w];
    assert forall k | 0 <= k < |ws| :: all[k] == ws[k];
    if IsChain(all) && ws != [] {
      assert all[|ws| - 1].to == all[|ws|].from;
    }
  }

  /** In every history: the switches form a chain if and only if none was recorded after a
      switch to an empty subject. */
  lemma {:induction false} ChainsExactlyWhen(seen: seq<string>)
    ensures IsChain(Switches(seen)) <==> !ResumesAfterLoss(seen)
  {
    if |seen| >= 2 {
      var p, b := seen[..|seen| - 1], seen[|seen| - 1];
      assert seen == p + [b];
      OneMoreSubject(p, b);
      ChainsExactlyWhen(p);
      LastSwitch(p);
      hide LosesSubject, ResumesAfterLoss, IsChain;
      ChainOneMore(Switches(p), Switch(Last(p), b));
      assert Switches(p) + [] == Switches(p);
    }
  }

  /** The shortest such history: a switch to an empty subject and later one from another. */
  lemma EmptySubjectBreaksTheChain(a: string, b: string, c: string)
    requires a != "" && b != "" && c != b
    ensures Switches([a, "", b, c]) == [Switch(a, ""), Switch(b, c)]
    ensures !IsChain(Switches([a, "", b, c])) && ResumesAfterLoss([a, "", b, c])
  {
    var seen := [a, "", b, c];
    assert seen[..3] == [a, "", b] && [a, "", b][..2] == [a, ""] && [a, ""][..1] == [a];
    assert Switches([a]) == [] && Switches([a, ""]) == [Switch(a, "")];
    assert Switches([a, "", b]) == Switches([a, ""]) + [];
    assert Recorded(seen, 1) && Recorded(seen, 3);
    ChainsExactlyWhen(seen);
  }
}
