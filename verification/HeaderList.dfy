/**
 The circular doubly linked header list of a SIP account: a sentinel node that is itself a header,
 `pj_list_push_back`, `pj_list_erase`, and the erase-while-walking loop of
 `relayVoipPushNotification` (plivo_app_callback.cpp:1133-1149).
 */
module HeaderList {

  datatype Header = Header(name: string, value: string)

  /** A `pjsip_hdr`; the initialiser links it to itself. */
  class Node {
    const hdr: Header
    var next: Node
    var prev: Node

    constructor (h: Header)
      ensures hdr == h && next == this && prev == this
    {
      hdr, next, prev := h, this, this;
    }
  }

  predicate Named(h: Header, name1: string, name2: string) {
    h.name == name1 || h.name == name2
  }

  /** The nodes named neither `name1` nor `name2`, in order. */
  ghost function Others(nodes: seq<Node>, name1: string, name2: string): seq<Node> {
    if nodes == [] then []
    else (if Named(nodes[0].hdr, name1, name2) then [] else [nodes[0]]) + Others(nodes[1..], name1, name2)
  }

  /** The headers named neither `name1` nor `name2`, in order. */
  ghost function OtherHeaders(hs: seq<Header>, name1: string, name2: string): seq<Header> {
    if hs == [] then []
    else
      var last := hs[|hs| - 1];
      OtherHeaders(hs[..|hs| - 1], name1, name2) + if Named(last, name1, name2) then [] else [last]
  }

  lemma {:induction false} OtherHeadersConcat(a: seq<Header>, b: seq<Header>, name1: string, name2: string)
    ensures OtherHeaders(a + b, name1, name2) == OtherHeaders(a, name1, name2) + OtherHeaders(b, name1, name2)
  {
    if b == [] {
      assert a + b == a;
    } else {
      OtherHeadersConcat(a, b[..|b| - 1], name1, name2);
      assert (a + b)[..|a + b| - 1] == a + b[..|b| - 1];
    }
  }

  ghost predicate NoneNamed(hs: seq<Header>, name1: string, name2: string) {
    forall i :: 0 <= i < |hs| ==> !Named(hs[i], name1, name2)
  }

  lemma {:induction false} OtherHeadersAll(hs: seq<Header>, name1: string, name2: string)
    requires NoneNamed(hs, name1, name2)
    ensures OtherHeaders(hs, name1, name2) == hs
  {
    if hs != [] {
      var init, last := hs[..|hs| - 1], hs[|hs| - 1];
      OtherHeadersAll(init, name1, name2);
      assert !Named(last, name1, name2);
      assert hs == init + [last];
    }
  }

  lemma {:induction false} OtherHeadersNone(hs: seq<Header>, name1: string, name2: string)
    requires forall i :: 0 <= i < |hs| ==> Named(hs[i], name1, name2)
    ensures OtherHeaders(hs, name1, name2) == []
  {
    if hs != [] { OtherHeadersNone(hs[..|hs| - 1], name1, name2); }
  }

  /** No header that is left has either name. */
  lemma {:induction false} OtherHeadersClean(hs: seq<Header>, name1: string, name2: string)
    ensures NoneNamed(OtherHeaders(hs, name1, name2), name1, name2)
  {
    if hs != [] { OtherHeadersClean(hs[..|hs| - 1], name1, name2); }
  }

  /** Between clean stretches, dropping the names takes out exactly the stretch that has them. */
  lemma OtherHeadersMiddle(a: seq<Header>, b: seq<Header>, c: seq<Header>, name1: string, name2: string)
    requires NoneNamed(a, name1, name2) && NoneNamed(c, name1, name2)
    requires forall i :: 0 <= i < |b| ==> Named(b[i], name1, name2)
    ensures OtherHeaders(a + b + c, name1, name2) == a + c
  {
    OtherHeadersConcat(a + b, c, name1, name2);
    OtherHeadersConcat(a, b, name1, name2);
    OtherHeadersAll(a, name1, name2);
    OtherHeadersNone(b, name1, name2);
    OtherHeadersAll(c, name1, name2);
    assert a + [] == a;
  }

  /** The values of the headers with one name, in order. */
  ghost function Values(hs: seq<Header>, name: string): seq<string> {
    if hs == [] then []
    else
      var last := hs[|hs| - 1];
      Values(hs[..|hs| - 1], name) + if last.name == name then [last.value] else []
  }

  lemma {:induction false} ValuesConcat(a: seq<Header>, b: seq<Header>, name: string)
    ensures Values(a + b, name) == Values(a, name) + Values(b, name)
  {
    if b == [] {
      assert a + b == a;
    } else {
      var init, last := b[..|b| - 1], b[|b| - 1];
      ValuesConcat(a, init, name);
      assert (a + b)[..|a + b| - 1] == a + init && (a + b)[|a + b| - 1] == last;
      var own: seq<string> := if last.name == name then [last.value] else [];
      assert Values(a + b, name) == Values(a + init, name) + own;
      assert Values(b, name) == Values(init, name) + own;
    }
  }

  lemma ValuesOf4(a: seq<Header>, b: seq<Header>, c: seq<Header>, d: seq<Header>, name: string)
    ensures Values(a + b + c + d, name) == Values(a, name) + Values(b, name) + Values(c, name) + Values(d, name)
  {
    ValuesConcat(a + b + c, d, name);
    ValuesConcat(a + b, c, name);
    ValuesConcat(a, b, name);
  }

  /** Dropping two names changes what is read under those names and under no other. */
  lemma {:induction false} ValuesOfOthers(hs: seq<Header>, name1: string, name2: string, name: string)
    ensures Values(OtherHeaders(hs, name1, name2), name)
         == if name == name1 || name == name2 then [] else Values(hs, name)
  {
    if hs != [] {
      var init, last := hs[..|hs| - 1], hs[|hs| - 1];
      ValuesOfOthers(init, name1, name2, name);
      var before := OtherHeaders(init, name1, name2);
      if Named(last, name1, name2) {
        assert OtherHeaders(hs, name1, name2) == before;
      } else {
        ValuesConcat(before, [last], name);
        assert [last][..0] == [];
      }
    }
  }

  /** What the walk leaves, read as headers. */
  lemma {:induction false} HeadersOfOthers(nodes: seq<Node>, name1: string, name2: string)
    ensures Headers(Others(nodes, name1, name2)) == OtherHeaders(Headers(nodes), name1, name2)
  {
    if nodes != [] {
      var first, rest := [nodes[0].hdr], nodes[1..];
      HeadersOfOthers(rest, name1, name2);
      OtherHeadersConcat(first, Headers(rest), name1, name2);
      assert Headers(nodes) == first + Headers(rest);
      assert first[..0] == [];
    }
  }

  ghost function Headers(nodes: seq<Node>): (r: seq<Header>)
    ensures |r| == |nodes| && forall i :: 0 <= i < |nodes| ==> r[i] == nodes[i].hdr
  {
    seq(|nodes|, i requires 0 <= i < |nodes| => nodes[i].hdr)
  }

  /** Taking out the first node not yet walked over. */
  lemma TakeOut(kept: seq<Node>, rest: seq<Node>)
    requires rest != []
    ensures var s := kept + rest; s[..|kept|] + s[|kept| + 1..] == kept + rest[1..] && s[|kept|] == rest[0]
    ensures kept + rest == kept + [rest[0]] + rest[1..]
  {
  }

  lemma WalkOver(kept: seq<Node>, rest: seq<Node>, name1: string, name2: string)
    requires rest != []
    ensures kept + Others(rest, name1, name2)
         == (if Named(rest[0].hdr, name1, name2) then kept else kept + [rest[0]]) + Others(rest[1..], name1, name2)
  {
  }

  /** Names a place of the ring in a quantifier; always true. */
  ghost predicate Place(i: int) { true }

  /** The place before place `k` was taken out of what is now place `i`. */
  ghost function Shift(i: int, k: int): int {
    if i < k then i else i + 1
  }

  /** The node at place `i` of the ring; the sentinel stands before the first node and after the last. */
  ghost function RingAt(head: Node, nodes: seq<Node>, i: int): Node {
    if 0 <= i < |nodes| then nodes[i] else head
  }

  /** No node comes twice in one round. */
  ghost predicate Apart(head: Node, nodes: seq<Node>) {
    forall i, j {:trigger Place(i), Place(j)} ::
      Place(i) && Place(j) && -1 <= i < j < |nodes| ==> RingAt(head, nodes, i) != RingAt(head, nodes, j)
  }

  lemma TakenOut(head: Node, nodes: seq<Node>, k: nat)
    requires k < |nodes|
    ensures var s := nodes[..k] + nodes[k + 1..];
            (forall i :: -1 <= i <= |s| ==> RingAt(head, s, i) == RingAt(head, nodes, Shift(i, k))) &&
            (forall x :: x in s ==> x in nodes)
    ensures Apart(head, nodes) ==> Apart(head, nodes[..k] + nodes[k + 1..])
  {
    var s := nodes[..k] + nodes[k + 1..];
    forall i, j | Apart(head, nodes) && -1 <= i < j < |s| ensures RingAt(head, s, i) != RingAt(head, s, j) {
      assert Place(Shift(i, k)) && Place(Shift(j, k));
    }
  }

  class List {
    const head: Node
    ghost var nodes: seq<Node>

    ghost function At(i: int): Node
      reads this
    {
      RingAt(head, nodes, i)
    }

    ghost function Cells(): set<Node>
      reads this
    {
      set x | x in nodes
    }

    /** Walking forward from the sentinel meets `nodes` in order, walking backward in reverse, and no node twice. */
    ghost predicate Valid()
      reads this, head, Cells()
    {
      Apart(head, nodes) &&
      (forall i {:trigger Place(i)} :: Place(i) && -1 <= i < |nodes| ==> At(i).next == At(i + 1)) &&
      (forall i {:trigger Place(i)} :: Place(i) && 0 <= i <= |nodes| ==> At(i).prev == At(i - 1))
    }

    ghost function Contents(): seq<Header>
      reads this
    {
      Headers(nodes)
    }

    constructor ()
      ensures Valid() && fresh(head) && nodes == []
    {
      var sentinel := new Node(Header("", ""));
      head, nodes := sentinel, [];
    }

    /** `pj_list_push_back`: insert before the sentinel. */
    method PushBack(x: Node)
      requires Valid() && x != head && x !in nodes
      modifies this, head, Cells(), x
      ensures Valid() && nodes == old(nodes) + [x]
    {
      ghost var n := |nodes|;
      assert Place(n) && Place(n - 1) && Place(-1);
      var last := head.prev;
      x.prev := last;
      x.next := head;
      last.next := x;
      head.prev := x;
      nodes := nodes + [x];
    }

    /** Initialise a node with a header and push it back. */
    method Append(h: Header)
      requires Valid()
      modifies this, head, Cells()
      ensures Valid() && Contents() == old(Contents()) + [h] && fresh(Cells() - old(Cells()))
    {
      var x := new Node(h);
      PushBack(x);
    }

    /** `pj_list_erase`: unlink a node and leave it linked to itself. */
    method Erase(x: Node, ghost k: nat)
      requires Valid() && k < |nodes| && nodes[k] == x
      modifies this, head, Cells()
      ensures Valid() && nodes == old(nodes[..k] + nodes[k + 1..])
      ensures Cells() <= old(Cells())
      ensures x.next == x && x.prev == x
    {
      assert x.prev == At(k - 1) && x.next == At(k + 1) by {
        assert Place(k);
      }
      assert At(k - 1) != x && At(k + 1) != x by {
        assert Place(-1) && Place(k - 1) && Place(k) && Place(k + 1);
      }
      x.prev.next := x.next;
      x.next.prev := x.prev;
      x.next, x.prev := x, x;
      nodes := nodes[..k] + nodes[k + 1..];
      TakenOut(head, old(nodes), k);
      forall i | -1 <= i < |nodes| ensures At(i).next == At(i + 1) {
        if i == k - 1 {
          assert Place(k - 1) && Place(k);
        } else {
          assert Place(Shift(i, k)) && Place(k - 1) && Place(k);
        }
      }
      forall i | 0 <= i <= |nodes| ensures At(i).prev == At(i - 1) {
        assert Place(-1) && Place(Shift(i, k)) && Place(k) && Place(k + 1);
      }
    }

    /** The walk that drops every node with one of two names and keeps the others in order. */
    method EraseNamed(name1: string, name2: string)
      requires Valid()
      modifies this, head, Cells()
      ensures Valid() && nodes == Others(old(nodes), name1, name2)
      ensures Cells() <= old(Cells())
    {
      ghost var kept: seq<Node>, rest := [], nodes;
      assert Place(-1);
      var it := head.next;
      while it != head
        invariant Valid() && Cells() <= old(Cells())
        invariant nodes == kept + rest && it == At(|kept|)
        invariant kept + Others(rest, name1, name2) == Others(old(nodes), name1, name2)
        decreases |rest|
      {
        assert Place(|kept|) && rest != [];
        TakeOut(kept, rest);
        WalkOver(kept, rest, name1, name2);
        assert it == rest[0];
        if Named(it.hdr, name1, name2) {
          var tmp := it.next;
          Erase(it, |kept|);
          it := tmp;
        } else {
          kept := kept + [it];
          it := it.next;
        }
        rest := rest[1..];
      }
      assert Place(-1) && Place(|kept|);
    }
  }

  /** A list of fresh nodes that hold `hs` in order, as the library clones a header list. */
  method Clone(hs: seq<Header>) returns (list: List)
    ensures fresh(list) && fresh(list.head) && fresh(list.Cells())
    ensures list.Valid() && list.Contents() == hs
  {
    list := new List();
    for i := 0 to |hs|
      invariant fresh(list) && fresh(list.head) && fresh(list.Cells())
      invariant list.Valid() && list.Contents() == hs[..i]
    {
      list.Append(hs[i]);
    }
  }

  /** The headers in walking order, as the library reads a header list it is handed. */
  method ReadOut(list: List) returns (hs: seq<Header>)
    requires list.Valid()
    ensures hs == list.Contents()
  {
    hs := [];
    assert Place(-1);
    var it := list.head.next;
    while it != list.head
      invariant |hs| <= |list.nodes| && it == list.At(|hs|)
      invariant hs == list.Contents()[..|hs|]
      decreases |list.nodes| - |hs|
    {
      assert Place(|hs|) && it == list.nodes[|hs|];
      hs := hs + [it.hdr];
      it := it.next;
    }
    assert Place(-1) && Place(|hs|);
  }
}
