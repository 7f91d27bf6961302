/** The part of the DOM `EventTarget` interface that a broadcast channel hub
    relies on, after the WHATWG DOM Living Standard: section 2.7 ("add an event
    listener", "remove an event listener", "flatten") and section 2.9
    ("dispatch", "invoke", "inner invoke") for an event dispatched at a target
    that belongs to no tree, so that the event path is the target alone.

    Listener callbacks are opaque identities; what they do when invoked is not
    modelled, so the listener list cannot change while an event is dispatched. */
module EventTargets {
  import opened Slots

  /** The identity of a listener callback (a function or an object with a
      `handleEvent` method), compared by reference. */
  type ListenerId = nat

  /** One event listener of a target's event listener list: its type, its
      callback and its capture flag. The `once`, `passive` and `signal` members
      are not part of this model. */
  datatype Entry = Entry(kind: string, callback: ListenerId, capture: bool)

  /** The event listener list of one event target, in registration order. */
  type Hub = seq<Entry>

  /** The `options` argument of `addEventListener`/`removeEventListener`:
      omitted, a boolean, or a dictionary whose `capture` member may be absent. */
  datatype Options = Omitted | Flag(useCapture: bool) | Dictionary(capture: Slot<bool>)

  /** "Flatten" (section 2.7): the capture flag an `options` argument denotes;
      an omitted argument or member means `false`. */
  function Capture(options: Options): (r: bool)
    ensures r <==> options == Flag(true) || options == Dictionary(Present(true))
  {
    match options
    case Omitted => false
    case Flag(b) => b
    case Dictionary(Absent) => false
    case Dictionary(Present(b)) => b
  }

  /** No two entries of the list agree on type, callback and capture. */
  ghost predicate NoDuplicates(hub: Hub) {
    forall i, j :: 0 <= i < j < |hub| ==> hub[i] != hub[j]
  }

  /** "Add an event listener" (section 2.7): the entry is appended unless an
      entry with the same type, callback and capture is already registered. */
  function AddListener(hub: Hub, e: Entry): (r: Hub)
    ensures hub <= r
    ensures forall x :: x in r <==> x in hub || x == e
    ensures e in hub ==> r == hub
    ensures e !in hub ==> |r| == |hub| + 1
    ensures NoDuplicates(hub) ==> NoDuplicates(r)
  {
    if e in hub then hub else hub + [e]
  }

  /** "Remove an event listener" (section 2.7): the entry with the same type,
      callback and capture, if there is one, leaves the list; the others keep
      their order. */
  function RemoveListener(hub: Hub, e: Entry): (r: Hub)
    ensures forall x :: x in r ==> x in hub
    ensures forall x :: x in hub && x != e ==> x in r
    ensures e in hub ==> |r| == |hub| - 1
    ensures e !in hub ==> r == hub
  {
    if |hub| == 0 then []
    else if hub[0] == e then hub[1..]
    else [hub[0]] + RemoveListener(hub[1..], e)
  }

  /** On a list without duplicates, removal takes the entry out entirely and
      leaves a list without duplicates. */
  lemma {:induction false} RemoveKeepsNoDuplicates(hub: Hub, e: Entry)
    ensures NoDuplicates(hub) ==> e !in RemoveListener(hub, e) && NoDuplicates(RemoveListener(hub, e))
  {
    if |hub| > 0 && NoDuplicates(hub) {
      NoDuplicatesTail(hub);
      if hub[0] != e {
        var t := RemoveListener(hub[1..], e);
        RemoveKeepsNoDuplicates(hub[1..], e);
        NoDuplicatesCons(hub[0], t);
      }
    }
  }

  /** Putting an entry that is not in a list without duplicates in front of
      it gives a list without duplicates. */
  lemma NoDuplicatesCons(x: Entry, t: Hub)
    requires x !in t && NoDuplicates(t)
    ensures NoDuplicates([x] + t)
  {
    var h := [x] + t;
    forall i, j | 0 <= i < j < |h| ensures h[i] != h[j] {
      assert h[j] == t[j - 1];
      if i > 0 {
        assert h[i] == t[i - 1];
      }
    }
  }

  /** The tail of a list without duplicates has none either, and does not hold
      the head again. */
  lemma NoDuplicatesTail(hub: Hub)
    requires |hub| > 0
    ensures NoDuplicates(hub) ==> NoDuplicates(hub[1..]) && hub[0] !in hub[1..]
  {
    if NoDuplicates(hub) {
      var t := hub[1..];
      forall i, j | 0 <= i < j < |t| ensures t[i] != t[j] {
        assert t[i] == hub[i + 1] && t[j] == hub[j + 1];
      }
      forall j | 0 <= j < |t| ensures t[j] != hub[0] {
        assert t[j] == hub[j + 1];
      }
    }
  }

  /** "Inner invoke" (section 2.9) for one phase: the callbacks, in list
      order, of the entries whose type is the event's type and whose capture
      flag belongs to the phase (`true` for capturing, `false` for bubbling). */
  function Invoke(hub: Hub, kind: string, capturing: bool): (r: seq<ListenerId>)
    ensures |r| <= |hub|
  {
    if |hub| == 0 then []
    else
      var rest := Invoke(hub[1..], kind, capturing);
      if hub[0].kind == kind && hub[0].capture == capturing then [hub[0].callback] + rest else rest
  }

  /** "Dispatch" (section 2.9) of an event of type `kind` at a target outside
      any tree: the capturing invocation at the target, then the bubbling one.
      The result is the sequence of callbacks invoked. */
  function Dispatch(hub: Hub, kind: string): (r: seq<ListenerId>)
    ensures forall x :: x in r <==> Entry(kind, x, true) in hub || Entry(kind, x, false) in hub
  {
    InvokeMembers(hub, kind, true);
    InvokeMembers(hub, kind, false);
    Invoke(hub, kind, true) + Invoke(hub, kind, false)
  }

  /** One phase invokes a callback iff an entry of the event's type with that
      phase's capture flag holds it. */
  lemma {:induction false} InvokeMembers(hub: Hub, kind: string, capturing: bool)
    ensures forall x :: x in Invoke(hub, kind, capturing) <==> Entry(kind, x, capturing) in hub
  {
    if |hub| != 0 {
      InvokeMembers(hub[1..], kind, capturing);
      assert hub == [hub[0]] + hub[1..];
    }
  }

  /** Entries for `ids`, in order, all of type `kind` with capture `capture`. */
  function Entries(ids: seq<ListenerId>, kind: string, capture: bool): (r: Hub)
    ensures |r| == |ids|
    ensures forall i :: 0 <= i < |ids| ==> r[i] == Entry(kind, ids[i], capture)
  {
    if |ids| == 0 then [] else [Entry(kind, ids[0], capture)] + Entries(ids[1..], kind, capture)
  }

  /** Concatenation is associative. */
  lemma AppendAssociative<T>(a: seq<T>, b: seq<T>, c: seq<T>)
    ensures (a + b) + c == a + (b + c)
  {
  }

  /** The listeners the first entry of a non-empty list contributes to one
      phase, followed by those of the rest. */
  lemma InvokeUnfold(hub: Hub, kind: string, capturing: bool)
    requires |hub| > 0
    ensures Invoke(hub, kind, capturing)
      == (if hub[0].kind == kind && hub[0].capture == capturing then [hub[0].callback] else [])
         + Invoke(hub[1..], kind, capturing)
  {
  }

  /** Invocation keeps registration order: the listeners of a list made of two
      parts are those of the first part followed by those of the second. */
  lemma {:induction false} InvokeAppend(a: Hub, b: Hub, kind: string, capturing: bool)
    ensures Invoke(a + b, kind, capturing) == Invoke(a, kind, capturing) + Invoke(b, kind, capturing)
  {
    if |a| == 0 {
      assert a + b == b;
    } else {
      var ab := a + b;
      assert ab[0] == a[0];
      assert ab[1..] == a[1..] + b;
      var head := if a[0].kind == kind && a[0].capture == capturing then [a[0].callback] else [];
      InvokeUnfold(ab, kind, capturing);
      InvokeUnfold(a, kind, capturing);
      InvokeAppend(a[1..], b, kind, capturing);
      AppendAssociative(head, Invoke(a[1..], kind, capturing), Invoke(b, kind, capturing));
    }
  }

  /** Adding an absent listener leaves every invocation of the list as it was
      and puts the new listener last in its own phase. */
  lemma InvokeAfterAdd(hub: Hub, e: Entry, kind: string, capturing: bool)
    requires e !in hub
    ensures Invoke(AddListener(hub, e), kind, capturing)
      == Invoke(hub, kind, capturing) + (if e.kind == kind && e.capture == capturing then [e.callback] else [])
  {
    InvokeAppend(hub, [e], kind, capturing);
  }

  /** The invocations for a list with one entry singled out: those before
      it, its own (if it belongs to the phase), those after it. */
  lemma InvokeAround(a: Hub, e: Entry, b: Hub, kind: string, capturing: bool)
    ensures Invoke(a + [e] + b, kind, capturing)
      == Invoke(a, kind, capturing) + (if e.kind == kind && e.capture == capturing then [e.callback] else []) + Invoke(b, kind, capturing)
  {
    InvokeAppend(a + [e], b, kind, capturing);
    InvokeAppend(a, [e], kind, capturing);
  }

  /** Dispatch over a list made of two parts: each phase visits the first
      part, then the second. */
  lemma DispatchAppend(a: Hub, b: Hub, kind: string)
    ensures Dispatch(a + b, kind)
      == Invoke(a, kind, true) + Invoke(b, kind, true) + Invoke(a, kind, false) + Invoke(b, kind, false)
  {
    InvokeAppend(a, b, kind, true);
    InvokeAppend(a, b, kind, false);
    AppendAssociative(Invoke(a, kind, true) + Invoke(b, kind, true), Invoke(a, kind, false), Invoke(b, kind, false));
  }

  /** Dispatch over a list with one capture entry of the dispatched type
      singled out: its callback sits between the two parts in the capturing
      phase. */
  lemma DispatchAroundCapture(a: Hub, e: Entry, b: Hub, kind: string)
    requires e.kind == kind && e.capture
    ensures Invoke(a + [e] + b, kind, true) + Invoke(a + [e] + b, kind, false)
      == Invoke(a, kind, true) + [e.callback] + Invoke(b, kind, true) + Invoke(a, kind, false) + Invoke(b, kind, false)
  {
    var x := Invoke(a, kind, true) + [e.callback] + Invoke(b, kind, true);
    var p := Invoke(a, kind, false);
    var p' := Invoke(b, kind, false);
    assert Invoke(a + [e] + b, kind, true) + Invoke(a + [e] + b, kind, false) == x + (p + p') by {
      InvokeAround(a, e, b, kind, true);
      InvokeAround(a, e, b, kind, false);
      assert p + [] + p' == p + p';
    }
    AppendAssociative(x, p, p');
  }

  /** Dispatch over a list with one non-capture entry of the dispatched type
      singled out: its callback sits between the two parts in the bubbling
      phase. */
  lemma DispatchAroundBubble(a: Hub, e: Entry, b: Hub, kind: string)
    requires e.kind == kind && !e.capture
    ensures Invoke(a + [e] + b, kind, true) + Invoke(a + [e] + b, kind, false)
      == Invoke(a, kind, true) + Invoke(b, kind, true) + Invoke(a, kind, false) + [e.callback] + Invoke(b, kind, false)
  {
    var c := Invoke(a, kind, true);
    var c' := Invoke(b, kind, true);
    var y := Invoke(a, kind, false) + [e.callback];
    var p' := Invoke(b, kind, false);
    assert Invoke(a + [e] + b, kind, true) + Invoke(a + [e] + b, kind, false) == (c + c') + (y + p') by {
      InvokeAround(a, e, b, kind, true);
      InvokeAround(a, e, b, kind, false);
      assert c + [] + c' == c + c';
    }
    AppendAssociative(c + c', y, p');
    AppendAssociative(c + c', Invoke(a, kind, false), [e.callback]);
  }

  /** In a list without duplicates every registered listener is invoked
      exactly once in its phase, and an unregistered one never. */
  lemma {:induction false} InvokeOnce(hub: Hub, kind: string, capturing: bool, x: ListenerId)
    requires NoDuplicates(hub)
    ensures multiset(Invoke(hub, kind, capturing))[x] == if Entry(kind, x, capturing) in hub then 1 else 0
  {
    if |hub| != 0 {
      var t := hub[1..];
      NoDuplicatesTail(hub);
      InvokeOnce(t, kind, capturing, x);
      assert hub == [hub[0]] + t;
    }
  }

  /** Listeners registered with one and the same capture flag, all for the
      dispatched type, are invoked exactly in registration order. */
  lemma {:induction false} InvokeEntries(ids: seq<ListenerId>, kind: string, capture: bool)
    ensures Invoke(Entries(ids, kind, capture), kind, capture) == ids
    ensures Invoke(Entries(ids, kind, capture), kind, !capture) == []
  {
    if |ids| != 0 {
      var es := Entries(ids, kind, capture);
      assert es[1..] == Entries(ids[1..], kind, capture);
      InvokeEntries(ids[1..], kind, capture);
      assert ids == [ids[0]] + ids[1..];
    }
  }

  /** Removing an entry that was just appended to a list not holding it gives
      the list back. */
  lemma {:induction false} RemoveAppended(hub: Hub, e: Entry)
    requires e !in hub
    ensures RemoveListener(hub + [e], e) == hub
  {
    assert hub + [e] + [] == hub + [e] && hub + [] == hub;
    RemoveSplits(hub, e, []);
  }

  /** Removal takes out the first matching entry only: the entries before
      and after it stay, in their order. */
  lemma {:induction false} RemoveSplits(a: Hub, e: Entry, b: Hub)
    requires e !in a
    ensures RemoveListener(a + [e] + b, e) == a + b
  {
    if |a| == 0 {
      RemoveSplitsBase(a, e, b);
    } else {
      var t := a[1..];
      RemoveSplitsStep(a, e, b);
      assert e !in t;
      RemoveSplits(t, e, b);
      assert [a[0]] + (t + b) == a + b by {
        assert a == [a[0]] + t;
        AppendAssociative([a[0]], t, b);
      }
    }
  }

  /** The case of RemoveSplits where nothing precedes the entry. */
  lemma RemoveSplitsBase(a: Hub, e: Entry, b: Hub)
    requires |a| == 0
    ensures RemoveListener(a + [e] + b, e) == a + b
  {
    assert a + [e] + b == [e] + b && a + b == b by {
      assert a == [];
    }
    RemoveHead([e] + b, e);
    assert ([e] + b)[1..] == b;
  }

  /** One step of RemoveSplits: an entry before the removed one is kept in
      front. */
  lemma RemoveSplitsStep(a: Hub, e: Entry, b: Hub)
    requires |a| > 0 && a[0] != e
    ensures RemoveListener(a + [e] + b, e) == [a[0]] + RemoveListener(a[1..] + [e] + b, e)
  {
    var h := a + [e] + b;
    assert h[0] == a[0] && h[1..] == a[1..] + [e] + b;
    RemoveUnfold(h, e);
  }

  /** A present entry is removed at its first occurrence, and the list is
      otherwise kept in order. */
  lemma RemoveFirstOccurrence(hub: Hub, e: Entry) returns (i: nat)
    requires e in hub
    ensures i < |hub| && hub[i] == e && e !in hub[..i]
    ensures RemoveListener(hub, e) == hub[..i] + hub[i + 1..]
  {
    i := 0;
    while hub[i] != e
      invariant i < |hub| && e !in hub[..i] && e in hub[i..]
      decreases |hub| - i
    {
      assert hub[i..] == [hub[i]] + hub[i + 1..];
      assert hub[..i + 1] == hub[..i] + [hub[i]];
      i := i + 1;
    }
    assert hub == hub[..i] + [e] + hub[i + 1..];
    RemoveSplits(hub[..i], e, hub[i + 1..]);
  }

  /** Removal drops a matching first entry. */
  lemma RemoveHead(hub: Hub, e: Entry)
    requires |hub| > 0 && hub[0] == e
    ensures RemoveListener(hub, e) == hub[1..]
  {
  }

  /** Removal keeps a non-matching first entry and continues with the rest. */
  lemma RemoveUnfold(hub: Hub, e: Entry)
    requires |hub| > 0 && hub[0] != e
    ensures RemoveListener(hub, e) == [hub[0]] + RemoveListener(hub[1..], e)
  {
  }
}
