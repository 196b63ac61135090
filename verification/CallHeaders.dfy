/** The custom header list `CallH` builds from its argument (plivo_app_callback.cpp:757-793). */
module CallHeaders {
  import opened HeaderList
  import opened Options
  import opened PushMessage
  import opened Tokenizer

  ghost function Pairs(f: Fields): seq<Header>
    requires |f.keys| == |f.values|
  {
    seq(|f.keys|, i requires 0 <= i < |f.keys| => Header(f.keys[i], f.values[i]))
  }

  /** Defined on the texts whose every item holds a colon that is not its last character. */
  method CustomHeaders(headers: string) returns (list: List)
    requires HeaderFields(headers).Some?
    ensures fresh(list) && fresh(list.head) && fresh(list.Cells()) && list.Valid()
    ensures var f := HeaderFields(headers).value;
            |f.keys| == |f.values| && list.Contents() == Pairs(f)
    ensures var items, hdrs := Items(headers, ','), list.Contents();
            |hdrs| == |items| && forall i :: 0 <= i < |items| ==>
              |Items(items[i], ':')| >= 2 &&
              hdrs[i].name == Items(items[i], ':')[0] && hdrs[i].value == Items(items[i], ':')[1]
  {
    HeaderFieldsExactly(headers);
    var f := ParseHeaders(headers);
    var key, value := f.value.keys, f.value.values;
    list := new List();
    for i := 0 to |key|
      invariant fresh(list) && fresh(list.head) && fresh(list.Cells())
      invariant list.Valid() && list.Contents() == Pairs(f.value)[..i]
    {
      list.Append(Header(key[i], value[i]));
    }
  }

  /** The text of a pair list puts one header a pair on the call, in order. */
  method FormattedHeaders(f: Fields) returns (list: List)
    requires |f.keys| == |f.values| && Plain(f.keys) && Plain(f.values) && "" !in f.values
    ensures list.Valid() && |list.Contents()| == |f.keys|
    ensures forall i :: 0 <= i < |f.keys| ==>
              list.Contents()[i].name == f.keys[i] && list.Contents()[i].value == f.values[i]
  {
    HeaderRoundTrip(f);
    list := CustomHeaders(Format(f));
  }
}
