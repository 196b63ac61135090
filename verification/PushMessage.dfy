/**
 The "key:value,key:value" texts handed to `relayVoipPushNotification` and `CallH`
 (plivo_app_callback.cpp:769-775 and 1069-1114).
 */
module PushMessage {
  import opened Options
  import opened Tokenizer

  /** The two parallel vectors the parsers fill. */
  datatype Fields = Fields(keys: seq<string>, values: seq<string>)

  /** The three values a push carries; a key the text does not hold leaves its variable unset. */
  datatype Push = Push(xLabel: Option<string>, xIndex: Option<string>, registrar: Option<string>)

  // ----- one "key:value" item

  /** The text before the first colon. */
  function KeyOf(item: string): string {
    item[..IndexOf(item, ':')]
  }

  /** The text between the first colon and the second, or the end. */
  function ValueOf(item: string): string {
    var i := IndexOf(item, ':');
    if i == |item| then "" else var rest := item[i + 1..]; rest[..IndexOf(rest, ':')]
  }

  /** The item has a colon that is not its last character. */
  predicate HasValue(item: string) {
    IndexOf(item, ':') + 1 < |item|
  }

  lemma ColonItems(item: string)
    requires item != ""
    ensures var each := Items(item, ':');
            |each| >= 1 && each[0] == KeyOf(item) &&
            (|each| == 1 <==> !HasValue(item)) &&
            ValueOf(item) == if |each| == 1 then "" else each[1]
  {
  }

  // ----- the parsing loops

  /** Every comma follows a character other than a comma. */
  ghost predicate CommasSeparate(s: string) {
    forall i :: 0 <= i < |s| && s[i] == ',' ==> 0 < i && s[i - 1] != ','
  }

  lemma CommasStep(head: string, rest: string)
    requires ',' !in head
    ensures CommasSeparate(head + [','] + rest) <==> head != "" && CommasSeparate(rest)
  {
    var s, n := head + [','] + rest, |head|;
    assert s[n] == ',';
    if head != "" && CommasSeparate(rest) {
      forall i | 0 <= i < |s| && s[i] == ',' ensures 0 < i && s[i - 1] != ',' {
        if i > n { assert rest[i - n - 1] == ','; }
      }
    }
    if CommasSeparate(s) {
      forall i | 0 <= i < |rest| && rest[i] == ',' ensures 0 < i && rest[i - 1] != ',' {
        assert s[i + n + 1] == ',' && s[i + n] != ',';
      }
    }
  }

  /** The parsers meet an item without pieces exactly where two commas touch or a comma comes first. */
  lemma {:induction false} EmptyItems(s: string)
    ensures CommasSeparate(s) <==> "" !in Items(s, ',')
    decreases |s|
  {
    if s != "" {
      var i := IndexOf(s, ',');
      var head := s[..i];
      if i < |s| {
        var rest := s[i + 1..];
        EmptyItems(rest);
        CommasStep(head, rest);
        assert s == head + [','] + rest;
      } else {
        assert head == s;
      }
    }
  }

  ghost function FieldsOf(items: seq<string>): Fields {
    Fields(seq(|items|, i requires 0 <= i < |items| => KeyOf(items[i])),
           seq(|items|, i requires 0 <= i < |items| => ValueOf(items[i])))
  }

  /** What the push parser makes of a text; None where it reads past the end of a vector. */
  ghost function PushFields(msg: string): Option<Fields> {
    if CommasSeparate(msg) then Some(FieldsOf(Items(msg, ','))) else None
  }

  /** What the `CallH` parser makes of a text: it reads the second piece of every item. */
  ghost function HeaderFields(headers: string): Option<Fields> {
    if forall item :: item in Items(headers, ',') ==> HasValue(item)
    then Some(FieldsOf(Items(headers, ','))) else None
  }

  /** The pair a parser pushes for one item, or None where the item has no first piece. */
  method SplitPair(item: string) returns (pair: Option<(string, string)>, both: bool)
    ensures pair.None? <==> item == ""
    ensures pair.Some? ==> pair.value == (KeyOf(item), ValueOf(item)) && (both <==> HasValue(item))
    ensures both ==> pair.Some?
  {
    var each := Split(item, ':');
    if |each| == 0 {
      return None, false;
    }
    ColonItems(item);
    both := |each| != 1;
    pair := Some((each[0], if both then each[1] else ""));
  }

  /** `key` and `value` hold the pairs of `items`, in order. */
  ghost predicate Filled(items: seq<string>, key: seq<string>, value: seq<string>) {
    |key| == |value| == |items| &&
    forall k :: 0 <= k < |items| ==> key[k] == KeyOf(items[k]) && value[k] == ValueOf(items[k])
  }

  lemma FillOne(items: seq<string>, n: nat, key: seq<string>, value: seq<string>)
    requires n < |items| && Filled(items[..n], key, value)
    ensures Filled(items[..n + 1], key + [KeyOf(items[n])], value + [ValueOf(items[n])])
  {
  }

  lemma FillAll(items: seq<string>, key: seq<string>, value: seq<string>)
    requires Filled(items[..|items|], key, value)
    ensures Fields(key, value) == FieldsOf(items)
  {
    assert items[..|items|] == items;
    assert key == FieldsOf(items).keys && value == FieldsOf(items).values;
  }

  method ParsePush(msg: string) returns (r: Option<Fields>)
    ensures r == PushFields(msg)
    ensures r.Some? ==> |r.value.keys| == |r.value.values|
  {
    var key: seq<string>, value: seq<string> := [], [];
    var items := Split(msg, ',');
    EmptyItems(msg);
    for i := 0 to |items|
      invariant forall k :: 0 <= k < i ==> items[k] != ""
      invariant Filled(items[..i], key, value)
    {
      var pair, both := SplitPair(items[i]);
      if pair.None? {
        return None;
      }
      FillOne(items, i, key, value);
      key, value := key + [pair.value.0], value + [pair.value.1];
    }
    FillAll(items, key, value);
    r := Some(Fields(key, value));
  }

  method ParseHeaders(headers: string) returns (r: Option<Fields>)
    ensures r == HeaderFields(headers)
    ensures r.Some? ==> |r.value.keys| == |r.value.values|
  {
    var key: seq<string>, value: seq<string> := [], [];
    var items := Split(headers, ',');
    for i := 0 to |items|
      invariant forall k :: 0 <= k < i ==> HasValue(items[k])
      invariant Filled(items[..i], key, value)
    {
      var pair, both := SplitPair(items[i]);
      if !both {
        assert items[i] in Items(headers, ',');
        return None;
      }
      FillOne(items, i, key, value);
      key, value := key + [pair.value.0], value + [pair.value.1];
    }
    FillAll(items, key, value);
    r := Some(Fields(key, value));
  }

  // ----- round trips

  function Text(key: string, value: string): string {
    key + ":" + value
  }

  function Texts(f: Fields): (r: seq<string>)
    requires |f.keys| == |f.values|
    ensures |r| == |f.keys|
  {
    seq(|f.keys|, i requires 0 <= i < |f.keys| => Text(f.keys[i], f.values[i]))
  }

  /** The text that lists the pairs: "k:v,k:v,...". */
  function Format(f: Fields): string
    requires |f.keys| == |f.values|
  {
    Join(Texts(f), ',')
  }

  ghost predicate Plain(parts: seq<string>) {
    Free(parts, ',') && Free(parts, ':')
  }

  lemma TextParts(key: string, value: string)
    requires ':' !in key && ':' !in value
    ensures KeyOf(Text(key, value)) == key && ValueOf(Text(key, value)) == value
    ensures HasValue(Text(key, value)) <==> value != ""
  {
    var t := Text(key, value);
    assert forall k :: 0 <= k < |key| ==> t[k] == key[k];
    assert t[|key|] == ':';
    assert IndexOf(t, ':') == |key|;
    assert t[|key| + 1..] == value;
    assert IndexOf(value, ':') == |value|;
  }

  lemma PartsOfText(f: Fields)
    requires |f.keys| == |f.values| && Plain(f.keys) && Plain(f.values)
    ensures Items(Format(f), ',') == Texts(f)
    ensures FieldsOf(Texts(f)) == f
  {
    SplitInvertsJoin(Texts(f), ',');
    forall i | 0 <= i < |f.keys|
      ensures KeyOf(Texts(f)[i]) == f.keys[i] && ValueOf(Texts(f)[i]) == f.values[i]
    {
      TextParts(f.keys[i], f.values[i]);
    }
    assert FieldsOf(Texts(f)).keys == f.keys;
    assert FieldsOf(Texts(f)).values == f.values;
  }

  /** No key or value that a parser returns holds a comma or a colon. */
  lemma ParsedArePlain(s: string)
    ensures var f := FieldsOf(Items(s, ',')); Plain(f.keys) && Plain(f.values)
  {
    ItemsAreFree(s, ',');
  }

  /** A push text gives back its pairs, empty ones included, exactly when they are free of both delimiters. */
  lemma PushRoundTrip(f: Fields)
    requires |f.keys| == |f.values|
    ensures PushFields(Format(f)) == Some(f) <==> Plain(f.keys) && Plain(f.values)
  {
    if Plain(f.keys) && Plain(f.values) {
      PartsOfText(f);
      EmptyItems(Format(f));
      assert forall i :: 0 <= i < |f.keys| ==> Texts(f)[i] != "";
    } else {
      ParsedArePlain(Format(f));
    }
  }

  /** `CallH` satisfies the same law exactly when, besides, no value is empty. */
  lemma HeaderRoundTrip(f: Fields)
    requires |f.keys| == |f.values|
    ensures HeaderFields(Format(f)) == Some(f)
       <==> Plain(f.keys) && Plain(f.values) && "" !in f.values
  {
    if Plain(f.keys) && Plain(f.values) {
      PartsOfText(f);
      forall i | 0 <= i < |f.keys| ensures HasValue(Texts(f)[i]) <==> f.values[i] != "" {
        TextParts(f.keys[i], f.values[i]);
      }
      if "" in f.values {
        var i :| 0 <= i < |f.values| && f.values[i] == "";
        assert Texts(f)[i] in Items(Format(f), ',');
      }
    } else {
      ParsedArePlain(Format(f));
    }
  }

  // ----- the key scan

  /** The map built by folding the first `n` pairs from left to right. */
  ghost function Table(f: Fields, n: nat): map<string, string>
    requires n <= |f.keys| == |f.values|
  {
    if n == 0 then map[] else Table(f, n - 1)[f.keys[n - 1] := f.values[n - 1]]
  }

  ghost function Lookup(m: map<string, string>, k: string): Option<string> {
    if k in m then Some(m[k]) else None
  }

  ghost function Scanned(f: Fields): Push
    requires |f.keys| == |f.values|
  {
    var t := Table(f, |f.keys|);
    Push(Lookup(t, "label"), Lookup(t, "index"), Lookup(t, "registrar"))
  }

  method ScanKeys(f: Fields) returns (p: Push)
    requires |f.keys| == |f.values|
    ensures p == Scanned(f)
  {
    var xLabel: Option<string>, xIndex: Option<string>, registrar: Option<string> := None, None, None;
    for i := 0 to |f.keys|
      invariant xLabel == Lookup(Table(f, i), "label")
      invariant xIndex == Lookup(Table(f, i), "index")
      invariant registrar == Lookup(Table(f, i), "registrar")
    {
      if f.keys[i] == "label" {
        xLabel := Some(f.values[i]);
      } else if f.keys[i] == "index" {
        xIndex := Some(f.values[i]);
      } else if f.keys[i] == "registrar" {
        registrar := Some(f.values[i]);
      }
    }
    p := Push(xLabel, xIndex, registrar);
  }

  /** Pair `i` is the last one among the first `n` with key `k`. */
  ghost predicate IsLast(f: Fields, n: nat, k: string, i: nat)
    requires n <= |f.keys|
  {
    i < n && f.keys[i] == k && forall j :: i < j < n ==> f.keys[j] != k
  }

  /** The last pair with a key wins, and only a key that occurs is found. */
  lemma {:induction false} LastWins(f: Fields, n: nat, k: string)
    requires n <= |f.keys| == |f.values|
    ensures Lookup(Table(f, n), k).Some? <==> k in f.keys[..n]
    ensures forall i: nat :: IsLast(f, n, k, i) ==> Lookup(Table(f, n), k) == Some(f.values[i])
  {
    if n > 0 {
      LastWins(f, n - 1, k);
      assert f.keys[..n] == f.keys[..n - 1] + [f.keys[n - 1]];
      forall i: nat | IsLast(f, n, k, i) ensures Lookup(Table(f, n), k) == Some(f.values[i]) {
        if i < n - 1 { assert IsLast(f, n - 1, k, i); }
      }
    }
  }

  /** What `relayVoipPushNotification` reads from its argument before it touches the account. */
  ghost function Decoded(msg: string): Option<Push> {
    match PushFields(msg)
    case None => None
    case Some(f) => Some(Scanned(f))
  }

  method DecodePush(msg: string) returns (r: Option<Push>)
    ensures r == Decoded(msg)
  {
    var f := ParsePush(msg);
    if f.None? { return None; }
    var p := ScanKeys(f.value);
    r := Some(p);
  }

  /** End to end: the text of a pair list yields, for each key, the value of its last pair. */
  lemma DecodeFormatted(f: Fields, l: nat, x: nat, r: nat)
    requires |f.keys| == |f.values| && Plain(f.keys) && Plain(f.values)
    requires IsLast(f, |f.keys|, "label", l) && IsLast(f, |f.keys|, "index", x)
    requires IsLast(f, |f.keys|, "registrar", r)
    ensures Decoded(Format(f)) == Some(Push(Some(f.values[l]), Some(f.values[x]), Some(f.values[r])))
  {
    PushRoundTrip(f);
    LastWins(f, |f.keys|, "label");
    LastWins(f, |f.keys|, "index");
    LastWins(f, |f.keys|, "registrar");
  }

  /** A value is set exactly when its key occurs. */
  lemma SetExactly(f: Fields)
    requires |f.keys| == |f.values|
    ensures Scanned(f).xLabel.Some? <==> "label" in f.keys
    ensures Scanned(f).xIndex.Some? <==> "index" in f.keys
    ensures Scanned(f).registrar.Some? <==> "registrar" in f.keys
  {
    assert f.keys[..|f.keys|] == f.keys;
    LastWins(f, |f.keys|, "label");
    LastWins(f, |f.keys|, "index");
    LastWins(f, |f.keys|, "registrar");
  }

  /**
   Keys are compared whole: with a space after each comma, as the comment on the push text shows it,
   two values stay unset.
   */
  lemma SpacedKeysAreMissed(l: string, x: string, r: string)
    requires Plain([l, x, r])
    ensures Decoded(Format(Fields(["label", " index", " registrar"], [l, x, r]))) == Some(Push(Some(l), None, None))
  {
    var f := Fields(["label", " index", " registrar"], [l, x, r]);
    assert Plain(f.keys);
    PushRoundTrip(f);
    SetExactly(f);
    assert f.keys[1] != "label" && f.keys[2] != "label";
    LastWins(f, 3, "label");
    assert IsLast(f, 3, "label", 0);
  }

  // ----- any text, by its pieces

  /** `CallH` needs two pieces of every item, and takes the first two. */
  lemma HeaderFieldsExactly(headers: string)
    ensures var items := Items(headers, ',');
            HeaderFields(headers).Some? <==> forall i :: 0 <= i < |items| ==> |Items(items[i], ':')| >= 2
    ensures HeaderFields(headers).Some? ==>
            var items, f := Items(headers, ','), HeaderFields(headers).value;
            |f.keys| == |f.values| == |items| &&
            forall i :: 0 <= i < |items| ==>
              |Items(items[i], ':')| >= 2 &&
              f.keys[i] == Items(items[i], ':')[0] && f.values[i] == Items(items[i], ':')[1]
  {
    var items := Items(headers, ',');
    forall item
      ensures HasValue(item) <==> |Items(item, ':')| >= 2
      ensures HasValue(item) ==> KeyOf(item) == Items(item, ':')[0] && ValueOf(item) == Items(item, ':')[1]
    {
      if item != "" { ColonItems(item); }
    }
    if forall i :: 0 <= i < |items| ==> |Items(items[i], ':')| >= 2 {
      forall item | item in items ensures HasValue(item) {
        var i :| 0 <= i < |items| && items[i] == item;
      }
    }
    if HeaderFields(headers).Some? {
      forall i | 0 <= i < |items| ensures HasValue(items[i]) {
        assert items[i] in items;
      }
    }
  }

  /** The item's first piece is `key`. */
  ghost predicate Keyed(item: string, key: string) {
    Items(item, ':') != [] && Items(item, ':')[0] == key
  }

  /** The item's second piece, if it has one. */
  ghost function SecondPiece(item: string): string {
    if |Items(item, ':')| >= 2 then Items(item, ':')[1] else ""
  }

  /** `v` is what the last item with the key holds, or nothing when no item has it. */
  ghost predicate ReadsAs(items: seq<string>, key: string, v: Option<string>) {
    match v
    case None => forall i :: 0 <= i < |items| ==> !Keyed(items[i], key)
    case Some(x) =>
      exists i :: 0 <= i < |items| && Keyed(items[i], key) && x == SecondPiece(items[i]) &&
                  forall j :: i < j < |items| ==> !Keyed(items[j], key)
  }

  lemma PiecesOf(item: string, key: string)
    requires item != ""
    ensures Keyed(item, key) <==> KeyOf(item) == key
    ensures SecondPiece(item) == ValueOf(item)
  {
    ColonItems(item);
  }

  lemma LookupMore(f: Fields, key: string, n: nat)
    requires 0 < n <= |f.keys| == |f.values|
    ensures Lookup(Table(f, n), key)
         == if f.keys[n - 1] == key then Some(f.values[n - 1]) else Lookup(Table(f, n - 1), key)
  {
  }

  lemma {:induction false} LookupReads(items: seq<string>, key: string, n: nat)
    requires n <= |items| && "" !in items
    ensures ReadsAs(items[..n], key, Lookup(Table(FieldsOf(items), n), key))
  {
    if n > 0 {
      var f, last, before := FieldsOf(items), items[n - 1], items[..n - 1];
      LookupReads(items, key, n - 1);
      var v := Lookup(Table(f, n - 1), key);
      assert Lookup(Table(f, n), key) == if Keyed(last, key) then Some(SecondPiece(last)) else v by {
        LookupMore(f, key, n);
        assert last in items;
        PiecesOf(last, key);
      }
      ReadsAsMore(before, last, key, v);
      assert items[..n] == before + [last];
    }
  }

  lemma ReadsAsMore(items: seq<string>, last: string, key: string, v: Option<string>)
    requires ReadsAs(items, key, v)
    ensures ReadsAs(items + [last], key, if Keyed(last, key) then Some(SecondPiece(last)) else v)
  {
    var all := items + [last];
    assert forall i :: 0 <= i < |items| ==> all[i] == items[i];
    if Keyed(last, key) {
      assert Keyed(all[|items|], key);
    } else if v.Some? {
      var i :| 0 <= i < |items| && Keyed(items[i], key) && v.value == SecondPiece(items[i]) &&
               forall j :: i < j < |items| ==> !Keyed(items[j], key);
      assert Keyed(all[i], key);
    }
  }

  /** For every text: each value is the second piece of the last item whose first piece is its key. */
  lemma DecodedExactly(msg: string)
    ensures Decoded(msg).Some? <==> "" !in Items(msg, ',')
    ensures Decoded(msg).Some? ==>
              var items, p := Items(msg, ','), Decoded(msg).value;
              ReadsAs(items, "label", p.xLabel) && ReadsAs(items, "index", p.xIndex) &&
              ReadsAs(items, "registrar", p.registrar)
  {
    EmptyItems(msg);
    var items := Items(msg, ',');
    if "" !in items {
      assert items[..|items|] == items;
      LookupReads(items, "label", |items|);
      LookupReads(items, "index", |items|);
      LookupReads(items, "registrar", |items|);
    }
  }
}
