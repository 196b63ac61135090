/** `split` and the `std::getline` it is built on (plivo_app_callback.cpp:137-151). */
module Tokenizer {

  /** Position of the first `d` at or after `from`, or `|s|` when there is none. */
  function IndexFrom(s: string, d: char, from: nat): (i: nat)
    requires from <= |s|
    ensures from <= i <= |s| && (i < |s| ==> s[i] == d)
    ensures forall k :: from <= k < i ==> s[k] != d
    decreases |s| - from
  {
    if from == |s| || s[from] == d then from else IndexFrom(s, d, from + 1)
  }

  function IndexOf(s: string, d: char): (i: nat)
    ensures i <= |s| && (i < |s| ==> s[i] == d)
    ensures forall k :: 0 <= k < i ==> s[k] != d
  {
    IndexFrom(s, d, 0)
  }

  /** The items `split` produces: a delimiter ends an item, so a trailing one opens no empty last item. */
  function Items(s: string, d: char): seq<string>
    decreases |s|
  {
    var i := IndexOf(s, d);
    if s == "" then []
    else if i == |s| then [s]
    else [s[..i]] + Items(s[i + 1..], d)
  }

  /** `d` between consecutive parts. */
  function Join(parts: seq<string>, d: char): string {
    if |parts| == 0 then ""
    else if |parts| == 1 then parts[0]
    else parts[0] + [d] + Join(parts[1..], d)
  }

  ghost predicate Free(parts: seq<string>, d: char) {
    forall k :: 0 <= k < |parts| ==> d !in parts[k]
  }

  /** The input side of a `std::stringstream`: what is left to read, and the end-of-file bit. */
  class StringStream {
    const text: string
    var pos: nat
    var eof: bool

    ghost function Rest(): string
      reads this
      requires Valid()
    {
      text[pos..]
    }

    ghost predicate Valid()
      reads this
    {
      pos <= |text| && (eof ==> pos == |text|)
    }

    constructor (s: string)
      ensures Valid() && Rest() == s
    {
      text, pos, eof := s, 0, false;
    }

    /** Fails when the end was already met or no character is left to extract. */
    method GetLine(delim: char) returns (ok: bool, item: string)
      requires Valid()
      modifies this
      ensures Valid()
      ensures ok <==> old(Rest()) != ""
      ensures if ok then |Rest()| < |old(Rest())| else Rest() == ""
      ensures Items(old(Rest()), delim) == if ok then [item] + Items(Rest(), delim) else []
    {
      if eof || pos == |text| {
        eof := true;
        return false, "";
      }
      ghost var before := Rest();
      var n := IndexOf(text[pos..], delim);
      item := text[pos..][..n];
      if pos + n < |text| {
        pos := pos + n + 1;
        assert Rest() == before[n + 1..];
      } else {
        assert item == before;
        pos, eof := |text|, true;
        assert Rest() == "";
      }
      ok := true;
    }
  }

  /** The three-argument `split`, which appends to the caller's vector. */
  method SplitInto(s: string, delim: char, elems: seq<string>) returns (r: seq<string>)
    ensures r == elems + Items(s, delim)
  {
    r := elems;
    ghost var done: seq<string> := [];
    var ss := new StringStream(s);
    var ok, item := ss.GetLine(delim);
    while ok
      invariant ss.Valid() && fresh(ss)
      invariant r == elems + done
      invariant Items(s, delim) == done + if ok then [item] + Items(ss.Rest(), delim) else []
      decreases |ss.Rest()|, ok
    {
      r, done := r + [item], done + [item];
      assert Items(s, delim) == done + Items(ss.Rest(), delim);
      ok, item := ss.GetLine(delim);
    }
  }

  method Split(s: string, delim: char) returns (elems: seq<string>)
    ensures elems == Items(s, delim)
  {
    elems := SplitInto(s, delim, []);
  }

  lemma {:induction false} ItemsAreFree(s: string, d: char)
    ensures Free(Items(s, d), d)
    decreases |s|
  {
    if s != "" {
      var i := IndexOf(s, d);
      if i < |s| { ItemsAreFree(s[i + 1..], d); }
    }
  }

  /** `s` without one trailing delimiter, if it has one. */
  function Trimmed(s: string, d: char): string {
    if s != "" && s[|s| - 1] == d then s[..|s| - 1] else s
  }

  lemma TrimmedTail(head: string, rest: string, d: char)
    requires rest != ""
    ensures Trimmed(head + [d] + rest, d) == head + [d] + Trimmed(rest, d)
  {
  }

  /** Joining what `split` returned gives the text back, less at most one trailing delimiter. */
  lemma {:induction false} JoinItems(s: string, d: char)
    ensures Join(Items(s, d), d) == Trimmed(s, d)
    decreases |s|
  {
    if s != "" {
      var i := IndexOf(s, d);
      if i < |s| {
        var head, rest := s[..i], s[i + 1..];
        assert s == head + [d] + rest;
        if rest == "" {
          assert Items(s, d) == [head];
        } else {
          JoinItems(rest, d);
          TrimmedTail(head, rest, d);
          assert Join([head] + Items(rest, d), d) == head + [d] + Join(Items(rest, d), d);
        }
      } else {
        assert s[..i] == s;
      }
    }
  }

  /** What `split` does with text that starts with a whole item and its delimiter. */
  lemma ItemsStep(head: string, tail: string, d: char)
    requires d !in head
    ensures Items(head + [d] + tail, d) == [head] + Items(tail, d)
  {
    var s := head + [d] + tail;
    assert s[|head|] == d;
    assert forall k :: 0 <= k < |head| ==> s[k] == head[k];
    assert IndexOf(s, d) == |head|;
    assert s[..|head|] == head && s[|head| + 1..] == tail;
  }

  lemma ItemsOfOne(item: string, d: char)
    requires d !in item && item != ""
    ensures Items(item, d) == [item]
  {
    assert IndexOf(item, d) == |item| && item[..|item|] == item;
  }

  lemma {:induction false} ItemsOfJoin(parts: seq<string>, d: char)
    requires Free(parts, d)
    requires parts != [] ==> parts[|parts| - 1] != ""
    ensures Items(Join(parts, d), d) == parts
  {
    if |parts| == 1 {
      ItemsOfOne(parts[0], d);
    } else if |parts| > 1 {
      ItemsOfJoin(parts[1..], d);
      ItemsStep(parts[0], Join(parts[1..], d), d);
    }
  }

  /** A list survives join-then-split exactly when its parts hold no delimiter and it does not end in an empty part. */
  lemma {:induction false} SplitInvertsJoin(parts: seq<string>, d: char)
    ensures Items(Join(parts, d), d) == parts
       <==> Free(parts, d) && (parts != [] ==> parts[|parts| - 1] != "")
  {
    if Free(parts, d) && (parts != [] ==> parts[|parts| - 1] != "") {
      ItemsOfJoin(parts, d);
    } else if Items(Join(parts, d), d) == parts {
      ItemsAreFree(Join(parts, d), d);
      LastItemMeetsEnd(parts, d);
      assert false;
    }
  }

  /** A list of free parts that ends in an empty part loses that part. */
  lemma {:induction false} LastItemMeetsEnd(parts: seq<string>, d: char)
    requires Free(parts, d) && parts != [] && parts[|parts| - 1] == ""
    ensures Items(Join(parts, d), d) == parts[..|parts| - 1]
  {
    if |parts| > 1 {
      var head, rest := parts[0], parts[1..];
      LastItemMeetsEnd(rest, d);
      ItemsStep(head, Join(rest, d), d);
      assert parts[..|parts| - 1] == [head] + rest[..|rest| - 1];
    }
  }
}
