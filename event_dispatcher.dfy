/**
  The event-listener registry mixed into GradientCreator's prototype
  (js/GradientCreator.js:251-353): a dictionary from event-type name to an
  ordered list of listeners, created lazily on the first registration.
*/
module EventDispatcher {

  import opened Wrappers

  /** `_listeners`: absent until the first `addEventListener`, then a dictionary. */
  type Registry<L> = Option<map<string, seq<L>>>

  /** The list registered for `t`, empty when there is none. */
  function ListenersOf<L>(reg: Registry<L>, t: string): seq<L>
  {
    if reg.Some? && t in reg.value then reg.value[t] else []
  }

  predicate NoDuplicates<L(==)>(s: seq<L>)
  {
    forall i, j :: 0 <= i < j < |s| ==> s[i] != s[j]
  }

  /** Every list in the registry holds each listener at most once. */
  predicate WellFormed<L(==)>(reg: Registry<L>)
  {
    reg.Some? ==> forall t :: t in reg.value ==> NoDuplicates(reg.value[t])
  }

  /** `Array.prototype.indexOf`: the first position of `x` in `s`, or -1. */
  function IndexOf<L(==)>(s: seq<L>, x: L): (i: int)
    ensures -1 <= i < |s|
    ensures i == -1 <==> x !in s
    ensures 0 <= i ==> s[i] == x && x !in s[..i]
  {
    if s == [] then -1
    else if s[0] == x then 0
    else
      var k := IndexOf(s[1..], x);
      if k == -1 then -1 else k + 1
  }

  /** `s` with every occurrence of `x` taken out, the others in their order. */
  function Without<L(==)>(s: seq<L>, x: L): seq<L>
  {
    if s == [] then []
    else (if s[0] == x then [] else [s[0]]) + Without(s[1..], x)
  }

  /** What `addEventListener(t, l)` makes of the registry. */
  function Added<L(==)>(reg: Registry<L>, t: string, l: L): Registry<L>
  {
    var m := if reg.Some? then reg.value else map[];
    var list := if t in m then m[t] else [];
    Some(m[t := if l in list then list else list + [l]])
  }

  /** What `removeEventListener(t, l)` makes of the registry. */
  function Removed<L(==)>(reg: Registry<L>, t: string, l: L): Registry<L>
  {
    if reg.None? || t !in reg.value then reg
    else Some(reg.value[t := Without(reg.value[t], l)])
  }

  /** A registration change a listener makes on the dispatcher that calls it. */
  datatype Reaction<L> = Subscribe(t: string, l: L) | Unsubscribe(t: string, l: L)

  function Apply<L(==)>(reg: Registry<L>, op: Reaction<L>): Registry<L>
  {
    match op
    case Subscribe(t, l) => Added(reg, t, l)
    case Unsubscribe(t, l) => Removed(reg, t, l)
  }

  /** The registry after the changes `ops`, in order. */
  function Replay<L(==)>(reg: Registry<L>, ops: seq<Reaction<L>>): Registry<L>
    decreases |ops|
  {
    if ops == [] then reg else Replay(Apply(reg, ops[0]), ops[1..])
  }

  /** Everything the listeners `called` do, in calling order. */
  function Effects<L>(called: seq<L>, react: L -> seq<Reaction<L>>): seq<Reaction<L>>
  {
    if called == [] then [] else Effects(called[..|called| - 1], react) + react(called[|called| - 1])
  }

  // ---------------------------------------------------------------------
  // Properties of the registry operations

  lemma {:induction false} WithoutAbsent<L>(s: seq<L>, x: L)
    requires x !in s
    ensures Without(s, x) == s
  {
    if s != [] {
      WithoutAbsent(s[1..], x);
    }
  }

  lemma {:induction false} WithoutSubset<L>(s: seq<L>, x: L)
    ensures forall y :: y in Without(s, x) ==> y in s && y != x
  {
    if s != [] {
      WithoutSubset(s[1..], x);
    }
  }

  lemma {:induction false} WithoutKeepsNoDuplicates<L>(s: seq<L>, x: L)
    requires NoDuplicates(s)
    ensures NoDuplicates(Without(s, x))
  {
    if s != [] {
      WithoutKeepsNoDuplicates(s[1..], x);
      WithoutSubset(s[1..], x);
      var w := Without(s, x);
      if s[0] != x {
        assert w == [s[0]] + Without(s[1..], x);
        forall i, j | 0 <= i < j < |w| ensures w[i] != w[j] {
          if i == 0 {
            assert w[j] in Without(s[1..], x);
            assert s[0] !in s[1..];
          }
        }
      }
    }
  }

  /** Splicing out the first occurrence removes the listener entirely when lists have no duplicates. */
  lemma {:induction false} SpliceIsWithout<L>(s: seq<L>, i: nat)
    requires NoDuplicates(s) && i < |s|
    ensures s[..i] + s[i + 1..] == Without(s, s[i])
  {
    if i == 0 {
      assert s[0] !in s[1..];
      WithoutAbsent(s[1..], s[0]);
    } else {
      SpliceIsWithout(s[1..], i - 1);
      assert s[1..][..i - 1] == s[1..i];
      assert s[1..][i..] == s[i + 1..];
      assert s[..i] + s[i + 1..] == [s[0]] + (s[1..i] + s[i + 1..]);
    }
  }

  lemma AppendKeepsNoDuplicates<L>(s: seq<L>, x: L)
    requires NoDuplicates(s) && x !in s
    ensures NoDuplicates(s + [x])
  {
  }

  lemma AddedWellFormed<L>(reg: Registry<L>, t: string, l: L)
    requires WellFormed(reg)
    ensures WellFormed(Added(reg, t, l))
  {
    var list := ListenersOf(reg, t);
    if l !in list {
      AppendKeepsNoDuplicates(list, l);
    }
  }

  lemma RemovedWellFormed<L>(reg: Registry<L>, t: string, l: L)
    requires WellFormed(reg)
    ensures WellFormed(Removed(reg, t, l))
  {
    if reg.Some? && t in reg.value {
      WithoutKeepsNoDuplicates(reg.value[t], l);
    }
  }

  lemma {:induction false} ReplayWellFormed<L>(reg: Registry<L>, ops: seq<Reaction<L>>)
    requires WellFormed(reg)
    ensures WellFormed(Replay(reg, ops))
    decreases |ops|
  {
    if ops != [] {
      match ops[0] {
        case Subscribe(t, l) => AddedWellFormed(reg, t, l);
        case Unsubscribe(t, l) => RemovedWellFormed(reg, t, l);
      }
      ReplayWellFormed(Apply(reg, ops[0]), ops[1..]);
    }
  }

  lemma {:induction false} ReplayAppend<L>(reg: Registry<L>, ops: seq<Reaction<L>>, more: seq<Reaction<L>>)
    ensures Replay(reg, ops + more) == Replay(Replay(reg, ops), more)
    decreases |ops|
  {
    if ops != [] {
      assert (ops + more)[1..] == ops[1..] + more;
      ReplayAppend(Apply(reg, ops[0]), ops[1..], more);
    } else {
      assert ops + more == more;
    }
  }

  /** After an add the listener is registered for `t`, exactly once; other types are untouched. */
  lemma AddRegistersOnce<L>(reg: Registry<L>, t: string, l: L)
    requires WellFormed(reg)
    ensures l in ListenersOf(Added(reg, t, l), t)
    ensures multiset(ListenersOf(Added(reg, t, l), t))[l] == 1
    ensures forall u :: u != t ==> ListenersOf(Added(reg, t, l), u) == ListenersOf(reg, u)
  {
    var list := ListenersOf(reg, t);
    var after := ListenersOf(Added(reg, t, l), t);
    AddedWellFormed(reg, t, l);
    OccursOnce(after, IndexOf(after, l));
  }

  lemma {:induction false} OccursOnce<L>(s: seq<L>, i: nat)
    requires NoDuplicates(s) && i < |s|
    ensures multiset(s)[s[i]] == 1
  {
    if i == 0 {
      assert s == [s[0]] + s[1..];
      assert s[0] !in s[1..];
    } else {
      OccursOnce(s[1..], i - 1);
      assert s == [s[0]] + s[1..];
    }
  }

  /** A second add of the same pair changes nothing. */
  lemma AddIdempotent<L>(reg: Registry<L>, t: string, l: L)
    ensures Added(Added(reg, t, l), t, l) == Added(reg, t, l)
  {
    var after := Added(reg, t, l);
    assert l in ListenersOf(after, t);
    assert after.value[t := after.value[t]] == after.value;
  }

  /**
    A remove takes `l` out of `t`'s list and keeps the rest in their order; the list
    loses exactly one entry when `l` was there, and no other type changes.
  */
  lemma RemoveDeletesOne<L>(reg: Registry<L>, t: string, l: L)
    requires WellFormed(reg)
    ensures l !in ListenersOf(Removed(reg, t, l), t)
    ensures ListenersOf(Removed(reg, t, l), t) == Without(ListenersOf(reg, t), l)
    ensures multiset(ListenersOf(Removed(reg, t, l), t)) == multiset(ListenersOf(reg, t)) - multiset{l}
    ensures forall u :: u != t ==> ListenersOf(Removed(reg, t, l), u) == ListenersOf(reg, u)
  {
    var list := ListenersOf(reg, t);
    if reg.Some? && t in reg.value {
      assert ListenersOf(Removed(reg, t, l), t) == Without(list, l);
    } else {
      assert Removed(reg, t, l) == reg;
      assert list == [];
    }
    WithoutSubset(list, l);
    WithoutCount(list, l);
  }

  lemma {:induction false} WithoutCount<L>(s: seq<L>, x: L)
    requires NoDuplicates(s)
    ensures multiset(Without(s, x)) == multiset(s) - multiset{x}
  {
    WithoutMultiset(s, x);
    var i := IndexOf(s, x);
    if i != -1 {
      OccursOnce(s, i);
    }
    assert multiset(s)[x := 0] == multiset(s) - multiset{x};
  }

  lemma {:induction false} WithoutMultiset<L>(s: seq<L>, x: L)
    ensures multiset(Without(s, x)) == multiset(s)[x := 0]
  {
    if s != [] {
      WithoutMultiset(s[1..], x);
      assert s == [s[0]] + s[1..];
      assert multiset(s) == multiset{s[0]} + multiset(s[1..]);
      if s[0] == x {
        assert Without(s, x) == Without(s[1..], x);
      } else {
        assert Without(s, x) == [s[0]] + Without(s[1..], x);
      }
    }
  }

  /** Removing a listener that was not there, or from a registry not yet created, changes nothing. */
  lemma RemoveAbsentIsNoOp<L>(reg: Registry<L>, t: string, l: L)
    requires l !in ListenersOf(reg, t)
    ensures Removed(reg, t, l) == reg
  {
    if reg.Some? && t in reg.value {
      WithoutAbsent(reg.value[t], l);
      assert reg.value[t := reg.value[t]] == reg.value;
    }
  }

  /** Removing what was just added gives back every list as it was. */
  lemma {:induction false} RemoveUndoesAdd<L>(reg: Registry<L>, t: string, l: L)
    requires l !in ListenersOf(reg, t)
    ensures forall u :: ListenersOf(Removed(Added(reg, t, l), t, l), u) == ListenersOf(reg, u)
  {
    var list := ListenersOf(reg, t);
    WithoutAbsent(list, l);
    WithoutAppend(list, l);
  }

  lemma {:induction false} WithoutAppend<L>(s: seq<L>, x: L)
    ensures Without(s + [x], x) == Without(s, x)
  {
    if s == [] {
      assert [x][1..] == [];
    } else {
      assert (s + [x])[1..] == s[1..] + [x];
      WithoutAppend(s[1..], x);
    }
  }

  // ---------------------------------------------------------------------
  // The dispatcher object

  lemma EffectsSnoc<L>(called: seq<L>, y: L, react: L -> seq<Reaction<L>>)
    ensures Effects(called + [y], react) == Effects(called, react) + react(y)
  {
    assert (called + [y])[..|called|] == called;
  }

  /** The copy loop of `dispatchEvent`: a fresh array holding the same listeners. */
  method Copy<L>(listenerArray: seq<L>) returns (snapshot: seq<L>)
    ensures snapshot == listenerArray
  {
    snapshot := [];
    var i := 0;
    while i < |listenerArray|
      invariant 0 <= i <= |listenerArray|
      invariant snapshot == listenerArray[..i]
    {
      snapshot := snapshot + [listenerArray[i]];
      i := i + 1;
    }
  }

  class Dispatcher<L(==)> {

    var listeners: Registry<L>

    ghost predicate Valid()
      reads this
    {
      WellFormed(listeners)
    }

    constructor ()
      ensures Valid() && listeners == None
    {
      listeners := None;
    }

    /** `hasEventListener`: whether `l` is registered for `t`. */
    function HasEventListener(t: string, l: L): (b: bool)
      reads this
      ensures b <==> l in ListenersOf(listeners, t)
    {
      if listeners.None? then false
      else t in listeners.value && IndexOf(listeners.value[t], l) != -1
    }

    /** `addEventListener`: creates the dictionary and the list on demand, appends `l` if absent. */
    method AddEventListener(t: string, l: L)
      requires Valid()
      modifies this
      ensures Valid()
      ensures listeners == Added(old(listeners), t, l)
    {
      ghost var before := listeners;
      if listeners.None? {
        listeners := Some(map[]);
      }
      var m := listeners.value;
      ghost var m0 := m;
      if t !in m {
        m := m[t := []];
      }
      var list := m[t];
      assert list == ListenersOf(before, t);
      if IndexOf(list, l) == -1 {
        m := m[t := list + [l]];
        assert m == m0[t := list + [l]];
      } else {
        assert m == m0[t := list];
      }
      listeners := Some(m);
      AddedWellFormed(before, t, l);
    }

    /** `removeEventListener`: splices out the first occurrence of `l`, if any. */
    method RemoveEventListener(t: string, l: L)
      requires Valid()
      modifies this
      ensures Valid()
      ensures listeners == Removed(old(listeners), t, l)
    {
      if listeners.None? {
        return;
      }
      var m := listeners.value;
      if t in m {
        var listenerArray := m[t];
        var index := IndexOf(listenerArray, l);
        if index != -1 {
          SpliceIsWithout(listenerArray, index);
          listeners := Some(m[t := listenerArray[..index] + listenerArray[index + 1..]]);
        } else {
          WithoutAbsent(listenerArray, l);
          assert m[t := listenerArray] == m;
        }
      }
      RemovedWellFormed(old(listeners), t, l);
    }

    /** One listener runs: it performs the registration changes `ops` on this dispatcher. */
    method Invoke(ops: seq<Reaction<L>>)
      requires Valid()
      modifies this
      ensures Valid()
      ensures listeners == Replay(old(listeners), ops)
    {
      var k := 0;
      while k < |ops|
        invariant 0 <= k <= |ops|
        invariant Valid()
        invariant listeners == Replay(old(listeners), ops[..k])
      {
        ReplayAppend(old(listeners), ops[..k], [ops[k]]);
        assert ops[..k + 1] == ops[..k] + [ops[k]];
        match ops[k] {
          case Subscribe(t, l) => AddEventListener(t, l);
          case Unsubscribe(t, l) => RemoveEventListener(t, l);
        }
        k := k + 1;
      }
      assert ops[..k] == ops;
    }

    /**
      `dispatchEvent`: copies the list registered for `eventType`, then calls every
      listener of the copy in order. `called` is the sequence of calls made; `react`
      says which registration changes each listener makes when it runs.
    */
    method DispatchEvent(eventType: string, react: L -> seq<Reaction<L>>) returns (called: seq<L>)
      requires Valid()
      modifies this
      ensures Valid()
      ensures called == ListenersOf(old(listeners), eventType)
      ensures NoDuplicates(called)
      ensures listeners == Replay(old(listeners), Effects(called, react))
    {
      called := [];
      if listeners.None? {
        return;
      }
      var m := listeners.value;
      if eventType !in m {
        return;
      }
      var snapshot := Copy(m[eventType]);
      var length := |snapshot|;
      var i := 0;
      while i < length
        invariant 0 <= i <= length
        invariant Valid()
        invariant called == snapshot[..i]
        invariant listeners == Replay(old(listeners), Effects(called, react))
      {
        assert snapshot[..i + 1] == called + [snapshot[i]];
        EffectsSnoc(called, snapshot[i], react);
        ReplayAppend(old(listeners), Effects(called, react), react(snapshot[i]));
        Invoke(react(snapshot[i]));
        called := called + [snapshot[i]];
        i := i + 1;
      }
    }
  }
}
