/** The X-PH collector of `on_incoming_call` (plivo_app_callback.cpp:174-193). */
module IncomingHeaders {
  import opened Tokenizer

  /** `::toupper` in the C locale. */
  function Upper(c: char): char {
    if 'a' <= c <= 'z' then (c as int - 32) as char else c
  }

  function UpperCase(s: string): string {
    seq(|s|, i requires 0 <= i < |s| => Upper(s[i]))
  }

  predicate OccursAt(pattern: string, s: string, i: int) {
    0 <= i <= |s| - |pattern| && s[i..i + |pattern|] == pattern
  }

  /** `std::string::find` finds the pattern. */
  predicate Occurs(pattern: string, s: string) {
    exists i :: 0 <= i <= |s| && OccursAt(pattern, s, i)
  }

  predicate IsExtra(line: string) {
    Occurs("X-PH", UpperCase(line))
  }

  /** The lines that carry an X-PH header, in order and as received. */
  function Extras(lines: seq<string>): (r: seq<string>)
    ensures forall x :: x in r ==> x != "" && IsExtra(x)
  {
    if lines == [] then []
    else if IsExtra(lines[|lines| - 1]) then Extras(lines[..|lines| - 1]) + [lines[|lines| - 1]]
    else Extras(lines[..|lines| - 1])
  }

  /** Every part followed by a delimiter: what the loop holds before it erases the last comma. */
  function Terminated(parts: seq<string>, d: char): string {
    if parts == [] then "" else Terminated(parts[..|parts| - 1], d) + parts[|parts| - 1] + [d]
  }

  lemma {:induction false} JoinSnoc(parts: seq<string>, last: string, d: char)
    ensures Join(parts + [last], d) == if parts == [] then last else Join(parts, d) + [d] + last
  {
    if |parts| == 1 {
      assert (parts + [last])[1..] == [last];
    } else if |parts| > 1 {
      JoinSnoc(parts[1..], last, d);
      assert (parts + [last])[1..] == parts[1..] + [last];
    }
  }

  lemma {:induction false} TerminatedIsJoined(parts: seq<string>, d: char)
    ensures Terminated(parts, d) == if parts == [] then "" else Join(parts, d) + [d]
  {
    if parts != [] {
      var init, last := parts[..|parts| - 1], parts[|parts| - 1];
      TerminatedIsJoined(init, d);
      JoinSnoc(init, last, d);
      assert parts == init + [last];
    }
  }

  method CollectExtras(msg: string) returns (header: string)
    ensures header == Join(Extras(Items(msg, '\n')), ',')
  {
    header := "";
    var lines := Split(msg, '\n');
    for i := 0 to |lines|
      invariant header == Terminated(Extras(lines[..i]), ',')
    {
      assert lines[..i + 1][..i] == lines[..i];
      var upper := UpperCase(lines[i]);
      if Occurs("X-PH", upper) {
        ghost var kept := Extras(lines[..i]) + [lines[i]];
        assert kept[..|kept| - 1] == Extras(lines[..i]);
        header := header + lines[i] + ",";
      }
    }
    assert lines[..|lines|] == lines;
    TerminatedIsJoined(Extras(lines), ',');
    if |header| > 0 {
      header := header[..|header| - 1];
    }
  }

  /** Splitting the delivered text at commas gives the lines back exactly when none of them holds a comma. */
  lemma ExtrasRecovered(msg: string)
    ensures var lines := Extras(Items(msg, '\n'));
            Items(Join(lines, ','), ',') == lines <==> Free(lines, ',')
  {
    var lines := Extras(Items(msg, '\n'));
    assert lines != [] ==> lines[|lines| - 1] in lines;
    SplitInvertsJoin(lines, ',');
  }

  lemma {:induction false} ExtrasOfConcat(a: seq<string>, b: seq<string>)
    ensures Extras(a + b) == Extras(a) + Extras(b)
  {
    if b == [] {
      assert a + b == a;
    } else {
      ExtrasOfConcat(a, b[..|b| - 1]);
      assert (a + b)[..|a + b| - 1] == a + b[..|b| - 1];
    }
  }

  /** Each line is kept in its place or dropped on its own: kept exactly when it is an X-PH line. */
  lemma ExtrasAround(before: seq<string>, line: string, after: seq<string>)
    ensures Extras(before + [line] + after)
         == Extras(before) + (if IsExtra(line) then [line] else []) + Extras(after)
  {
    ExtrasOfConcat(before + [line], after);
    assert (before + [line])[..|before|] == before;
  }

  /** Four characters that read X-PH in any case. */
  predicate ReadsXph(p: string) {
    |p| == 4 && p[0] in {'x', 'X'} && p[1] == '-' && p[2] in {'p', 'P'} && p[3] in {'h', 'H'}
  }

  /** The line holds X-PH, in any case, somewhere. */
  ghost predicate HoldsXph(line: string) {
    exists a: string, p: string, b: string :: ReadsXph(p) && line == a + p + b
  }

  lemma UpperReads(line: string, i: nat)
    requires i + 4 <= |line|
    ensures OccursAt("X-PH", UpperCase(line), i) <==> ReadsXph(line[i..i + 4])
  {
    var u, p := UpperCase(line)[i..i + 4], line[i..i + 4];
    assert u == "X-PH" <==> u[0] == 'X' && u[1] == '-' && u[2] == 'P' && u[3] == 'H';
    assert forall k :: 0 <= k < 4 ==> u[k] == Upper(p[k]);
  }

  /** The upper-cased search finds what the line holds. */
  lemma ExtraExactly(line: string)
    ensures IsExtra(line) <==> HoldsXph(line)
  {
    if IsExtra(line) {
      var i :| 0 <= i <= |UpperCase(line)| && OccursAt("X-PH", UpperCase(line), i);
      UpperReads(line, i);
      assert line == line[..i] + line[i..i + 4] + line[i + 4..];
    }
    if HoldsXph(line) {
      var a: string, p: string, b: string :| ReadsXph(p) && line == a + p + b;
      assert line[|a|..|a| + 4] == p;
      UpperReads(line, |a|);
      assert OccursAt("X-PH", UpperCase(line), |a|);
    }
  }

  /** A line is kept in its place exactly when it holds X-PH in any case. */
  lemma KeptExactly(before: seq<string>, line: string, after: seq<string>)
    ensures Extras(before + [line] + after)
         == Extras(before) + (if HoldsXph(line) then [line] else []) + Extras(after)
  {
    ExtrasAround(before, line, after);
    ExtraExactly(line);
  }
}
