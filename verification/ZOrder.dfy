/** The intrusive window list of compositor/comp.c: z_front, z_back and the z_next links,
    relinked in place, against the sequence of windows they stand for. */
module ZOrder {
  import opened Geometry
  import opened Wrappers
  import opened Stacking
  import opened Scene

  class Node {
    const win: Win
    var next: Node?

    constructor (win: Win)
      ensures this.win == win && next == null
    {
      this.win, next := win, null;
    }
  }

  /** Each node links to the one after it, and the last to none. */
  ghost predicate Linked(z: seq<Node>)
    reads z
  {
    && (forall i :: 0 <= i < |z| - 1 ==> z[i].next == z[i + 1])
    && (z != [] ==> z[|z| - 1].next == null)
  }

  ghost predicate Distinct(z: seq<Node>) {
    forall i, j :: 0 <= i < j < |z| ==> z[i] != z[j]
  }

  /** Putting an unlisted node that links to the first one in front. */
  lemma LinkedFront(z: seq<Node>, w: Node, r: seq<Node>)
    requires Linked(z) && Distinct(z) && w !in z && w.next == First(z) && r == [w] + z
    ensures Linked(r) && Distinct(r) && r[0] == w
  {
    assert r[0] == w && forall i :: 0 < i < |r| ==> r[i] == z[i - 1];
  }

  /** Linking the last node to an unlisted one. */
  lemma LinkedBack(z: seq<Node>, w: Node, r: seq<Node>)
    requires z != [] && Distinct(z) && w !in z && w.next == null && r == z + [w]
    requires forall i :: 0 <= i < |z| - 1 ==> z[i].next == z[i + 1]
    requires z[|z| - 1].next == w
    ensures Linked(r) && Distinct(r) && w in r
  {
    assert r[|z|] == w && forall i :: 0 <= i < |z| ==> r[i] == z[i];
  }

  ghost function First(z: seq<Node>): Node? { if z == [] then null else z[0] }

  /** The links after node k has been skipped. */
  lemma Skipped(z: seq<Node>, k: nat, r: seq<Node>)
    requires k < |z| && Distinct(z) && r == RemoveAt(z, k)
    requires forall j :: 0 <= j < |z| - 1 && j != k - 1 ==> z[j].next == z[j + 1]
    requires k + 1 < |z| ==> z[|z| - 1].next == null
    requires k > 0 ==> z[k - 1].next == if k + 1 < |z| then z[k + 1] else null
    ensures Linked(r) && Distinct(r) && z[k] !in r
  {
    forall j | 0 <= j < |r| - 1 ensures r[j].next == r[j + 1] {
      assert r[j] == z[if j < k then j else j + 1];
      assert r[j + 1] == z[if j + 1 < k then j + 1 else j + 2];
    }
    if r != [] {
      assert r[|r| - 1] == if k + 1 < |z| then z[|z| - 1] else z[k - 1];
    }
  }

  lemma StillListed(z: seq<Node>, k: nat, n: Node)
    requires k < |z| && n in z && n != z[k]
    ensures n in RemoveAt(z, k)
  {
    var i :| 0 <= i < |z| && z[i] == n;
    assert RemoveAt(z, k)[if i < k then i else i - 1] == n;
  }

  /** A reference to w is cleared. */
  function NullIf(r: Node?, w: Node): Node? { if r == w then null else r }

  class Stack {
    ghost var z: seq<Node>      // front to back
    var front: Node?
    var back: Node?
    var drag: Node?
    var resizing: Node?
    var hover: Node?
    var hoverDeco: Node?
    var capture: seq<Node?>

    /** The links stand for z. The back pointer is only known to be in the list when set: after
        win_release it can be missing although the list is not empty. */
    ghost predicate Valid()
      reads this, z
    {
      && Linked(z) && Distinct(z) && front == First(z)
      && (back != null ==> back in z)
      && |capture| == 3
    }

    /** A back pointer exists whenever there is a window: what z_push_bottom relies on. */
    ghost predicate Anchored()
      reads this
    {
      z != [] ==> back != null
    }

    constructor ()
      ensures Valid() && Anchored() && z == []
    {
      z, front, back := [], null, null;
      drag, resizing, hover, hoverDeco, capture := null, null, null, null, [null, null, null];
    }

    /** The unlinking walk shared by z_raise and win_release. */
    method Unlink(w: Node, ghost k: nat)
      requires Valid() && k < |z| && z[k] == w
      modifies this`front, this`z, z
      ensures Linked(z) && Distinct(z) && z == RemoveAt(old(z), k) && front == First(z) && w !in z
      ensures w.next == old(w.next)
    {
      var prev: Node? := null;
      var cur := front;
      ghost var i := 0;
      while cur != null && cur != w
        invariant 0 <= i <= k && cur == z[i]
        invariant prev == if i == 0 then null else z[i - 1]
        decreases k - i
      {
        prev, cur := cur, cur.next;
        i := i + 1;
      }
      assert i == k;
      ghost var z0 := z;
      if prev == null { front := w.next; } else { prev.next := w.next; }
      z := RemoveAt(z, k);
      Skipped(z0, k, z);
    }

    /** The walk that recomputes the tail. */
    method FindBack()
      requires Linked(z) && front == First(z)
      modifies this`back
      ensures if z == [] then back == null else back == z[|z| - 1]
    {
      back := front;
      ghost var i := 0;
      while back != null && back.next != null
        modifies this`back
        invariant z != [] ==> 0 <= i < |z| && back == z[i]
        invariant 0 <= i && (i + 1 < |z| ==> z[i].next == z[i + 1])
        invariant z == [] ==> back == null
        decreases |z| - i
      {
        back := back.next;
        i := i + 1;
      }
    }

    /** An unlisted window goes to the front; it is the back one too if there is none. */
    method PutFront(w: Node)
      requires Linked(z) && Distinct(z) && front == First(z) && w !in z && |capture| == 3
      requires back != null ==> back in z
      modifies this`front, this`back, this`z, w
      ensures Valid() && z == [w] + old(z) && Anchored()
    {
      ghost var z0 := z;
      w.next := front;
      front := w;
      z := [w] + z;
      LinkedFront(z0, w, z);
      if back == null { back := w; }
    }

    /** z_raise for a listed window. Its tail recomputation also restores a missing back. */
    method Raise(w: Node, ghost k: nat)
      requires Valid() && k < |z| && z[k] == w
      modifies this`front, this`back, this`z, z
      ensures Valid() && z == ToFront(old(z), k)
      ensures old(Anchored()) || k > 0 ==> Anchored()
    {
      if front == w {
        assert z == ToFront(z, 0);
        return;
      }
      ghost var n := back;
      ghost var z0 := z;
      Unlink(w, k);
      if back == w {
        FindBack();
      } else if n != null {
        StillListed(z0, k, n);
      }
      PutFront(w);
    }

    /** z_raise for a window that is not listed yet (MC_WIN_NEW). */
    method RaiseNew(w: Node)
      requires Valid() && w !in z
      modifies this`front, this`back, this`z, w
      ensures Valid() && z == [w] + old(z) && Anchored()
      ensures back == if old(back) == null then w else old(back)
    {
      ghost var z0 := z;
      w.next := front;
      front := w;
      z := [w] + z;
      LinkedFront(z0, w, z);
      if back == null { back := w; }
    }

    method LastFrom(w: Node, ghost k: nat) returns (t: Node)
      requires Linked(z) && k < |z| && z[k] == w
      ensures t == z[|z| - 1]
    {
      t := w;
      ghost var i := k;
      while t.next != null
        invariant 0 <= i < |z| && t == z[i] && (i < |z| - 1 ==> t.next == z[i + 1])
        decreases |z| - i
      {
        t := t.next;
        i := i + 1;
      }
    }

    /** z_push_bottom. Without a back pointer the new window becomes the whole list. */
    method PushBottom(w: Node)
      requires Valid() && w !in z
      modifies this`front, this`back, this`z, z, w
      ensures Valid() && Anchored()
      ensures z == if old(back) == null then [w] else old(z) + [w]
      ensures old(Anchored()) <==> z == old(z) + [w]
    {
      w.next := null;
      assert Linked(z);
      if back != null {
        ghost var i :| 0 <= i < |z| && z[i] == back;
        var t := LastFrom(back, i);
        ghost var z0 := z;
        t.next := w;
        z := z + [w];
        LinkedBack(z0, w, z);
      } else {
        front := w;
        z := [w];
      }
      back := w;
    }

    /** The list part of win_release, and the references it clears. The back pointer is lost
        exactly when the released window was the back one and the last of the list. */
    method Release(w: Node, ghost k: nat)
      requires Valid() && k < |z| && z[k] == w
      modifies this, z
      ensures Valid() && z == RemoveAt(old(z), k)
      ensures back == if old(back) == w then old(w.next) else old(back)
      ensures old(Anchored()) ==> (Anchored() <==> |z| == 0 || old(back) != w || k < |z|)
      ensures drag == NullIf(old(drag), w) && resizing == NullIf(old(resizing), w) && hover == NullIf(old(hover), w)
      ensures hoverDeco == if old(hover) == w then null else old(hoverDeco)
      ensures forall b :: 0 <= b < 3 ==> capture[b] == NullIf(old(capture)[b], w)
    {
      Unlink(w, k);
      ghost var z0 := old(z);
      if back == w { back := w.next; }
      assert back != null ==> back in z by {
        if old(back) == w && k + 1 < |z0| { assert z[k] == z0[k + 1] == back; }
        if old(back) != w && old(back) != null { StillListed(z0, k, old(back)); }
      }
      assert front != w;  // so the source's second test of z_front never applies
      ClearRefs(w);
    }

    method ClearRefs(w: Node)
      requires |capture| == 3
      modifies this`drag, this`resizing, this`hover, this`hoverDeco, this`capture
      ensures drag == NullIf(old(drag), w) && resizing == NullIf(old(resizing), w) && hover == NullIf(old(hover), w)
      ensures hoverDeco == if old(hover) == w then null else old(hoverDeco)
      ensures |capture| == 3 && forall b :: 0 <= b < 3 ==> capture[b] == NullIf(old(capture)[b], w)
    {
      if drag == w { drag := null; }
      if resizing == w { resizing := null; }
      for b := 0 to 3
        modifies this`capture
        invariant |capture| == 3
        invariant forall i :: 0 <= i < 3 ==> capture[i] == if i < b then NullIf(old(capture)[i], w) else old(capture)[i]
      {
        if capture[b] == w { capture := capture[b := null]; }
      }
      if hover == w { hover, hoverDeco := null, null; }
    }

    /** win_at on the links: the frontmost visible window whose frame has p. */
    method WinAt(p: Point, ws: int) returns (w: Node?)
      requires Valid()
      ensures w == null ==> forall i :: 0 <= i < |z| ==> !Under(z[i].win, ws, p)
      ensures w != null ==>
        exists k :: 0 <= k < |z| && w == z[k] && Under(w.win, ws, p) && forall i :: 0 <= i < k ==> !Under(z[i].win, ws, p)
    {
      w := front;
      ghost var i := 0;
      while w != null
        invariant 0 <= i <= |z| && w == if i < |z| then z[i] else null
        invariant forall j :: 0 <= j < i ==> !Under(z[j].win, ws, p)
        decreases |z| - i
      {
        if Visible(w.win, ws) && Frame(w.win).Has(p) { return; }
        w := w.next;
        i := i + 1;
      }
    }
  }

  /** Once the last window has been released from a longer list, adding a bottom window drops
      every other window from the list. */
  method LostStack(a: Node, b: Node, c: Node) returns (s: Stack)
    requires a != b && a != c && b != c
    modifies a, b, c
    ensures s.Valid() && s.z == [c]
  {
    s := new Stack();
    s.RaiseNew(b);
    s.RaiseNew(a);
    assert s.z == [a, b] && s.back == b;
    assert s.z[|s.z| - 1] == b;
    s.Release(b, 1);
    assert s.z == [a] && s.back == null;
    s.PushBottom(c);
  }
}
