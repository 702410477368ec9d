/**
 * `TaskEventManager`: the listeners told when a task finishes. A listener is
 * known by its identity; what it does when called is its own business, and
 * whether it raises is given as a predicate.
 */
module TaskEvents {
  import opened Common

  /** The identity of a registered listener object. */
  type Listener = nat

  /** Index of the first occurrence of `x` in `s`. */
  function FirstIndex(s: seq<Listener>, x: Listener): (i: nat)
    requires x in s
    ensures i < |s| && s[i] == x && x !in s[..i]
  {
    if s[0] == x then 0 else 1 + FirstIndex(s[1..], x)
  }

  /** Python's `list.remove(x)` guarded by `x in list`: the first occurrence goes, if any. */
  function RemoveFirst(s: seq<Listener>, x: Listener): seq<Listener>
  {
    if x in s then s[..FirstIndex(s, x)] + s[FirstIndex(s, x) + 1..] else s
  }

  /** Removing takes out one copy of the listener and keeps the order of the rest. */
  lemma RemoveFirstCount(s: seq<Listener>, x: Listener)
    ensures x in s ==> multiset(RemoveFirst(s, x)) == multiset(s) - multiset{x}
    ensures x !in s ==> RemoveFirst(s, x) == s
  {
    if x in s {
      var i := FirstIndex(s, x);
      assert s == s[..i] + [x] + s[i + 1..];
    }
  }

  /** Adding a listener and then removing it restores the list when it was not registered before. */
  lemma AddThenRemove(s: seq<Listener>, x: Listener)
    requires x !in s
    ensures RemoveFirst(s + [x], x) == s
  {
    assert FirstIndex(s + [x], x) == |s|;
    assert (s + [x])[..|s|] == s;
  }

  /**
   * The listeners `notify_task_finished` calls: each in turn, up to and
   * including the first one that raises.
   */
  function Calls(listeners: seq<Listener>, raises: Listener -> bool): seq<Listener>
    decreases |listeners|
  {
    if listeners == [] then []
    else if raises(listeners[0]) then [listeners[0]]
    else [listeners[0]] + Calls(listeners[1..], raises)
  }

  /**
   * The calls are a prefix of the listener list; every call but a raising last
   * one returned normally; and when no listener raises, every listener is
   * called once per registration, in order.
   */
  lemma {:induction false} CallsPrefix(listeners: seq<Listener>, raises: Listener -> bool)
    ensures var c := Calls(listeners, raises);
      && |c| <= |listeners| && c == listeners[..|c|]
      && (forall i | 0 <= i < |c| - 1 :: !raises(c[i]))
      && ((forall l | l in listeners :: !raises(l)) <==> c == listeners && (c == [] || !raises(c[|c| - 1])))
    decreases |listeners|
  {
    if listeners != [] {
      CallsPrefix(listeners[1..], raises);
      var c := Calls(listeners, raises);
      if !raises(listeners[0]) {
        var tail := Calls(listeners[1..], raises);
        assert c == [listeners[0]] + tail;
        assert forall l | l in listeners[1..] :: l in listeners;
        assert (forall l | l in listeners :: !raises(l)) <==> (forall l | l in listeners[1..] :: !raises(l));
      }
    }
  }

  class TaskEventManager {
    var listeners: seq<Listener>

    constructor ()
      ensures listeners == []
    {
      listeners := [];
    }

    /** `add_listener`: appended, even when already registered. */
    method AddListener(l: Listener)
      modifies this
      ensures listeners == old(listeners) + [l]
    {
      listeners := listeners + [l];
    }

    /** `remove_listener`: the first registration goes; an unregistered listener is ignored. */
    method RemoveListener(l: Listener)
      modifies this
      ensures listeners == RemoveFirst(old(listeners), l)
    {
      var i := 0;
      while i < |listeners| && listeners[i] != l
        invariant 0 <= i <= |listeners|
        invariant l !in listeners[..i]
      {
        assert listeners[..i + 1] == listeners[..i] + [listeners[i]];
        i := i + 1;
      }
      if i < |listeners| {
        assert FirstIndex(listeners, l) == i;
        listeners := listeners[..i] + listeners[i + 1..];
      } else {
        assert listeners[..i] == listeners;
      }
    }

    /**
     * `notify_task_finished(task)`: the listeners are called in order; the
     * first exception stops the loop and propagates.
     */
    method NotifyTaskFinished(raises: Listener -> bool) returns (called: seq<Listener>, r: Outcome)
      ensures called == Calls(listeners, raises)
      ensures r == Done <==> forall l | l in listeners :: !raises(l)
      ensures r != Done ==> r == Raised(ForeignError)
    {
      called := [];
      var i := 0;
      while i < |listeners|
        invariant 0 <= i <= |listeners|
        invariant called == listeners[..i]
        invariant forall k | 0 <= k < i :: !raises(listeners[k])
        invariant Calls(listeners, raises) == called + Calls(listeners[i..], raises)
      {
        var l := listeners[i];
        called := called + [l];
        if raises(l) {
          assert Calls(listeners[i..], raises) == [l];
          assert l in listeners;
          return called, Raised(ForeignError);
        }
        assert listeners[..i + 1] == listeners[..i] + [l];
        assert listeners[i + 1..] == listeners[i..][1..];
        i := i + 1;
      }
      assert listeners[..i] == listeners;
      assert listeners[i..] == [];
      r := Done;
    }
  }
}
