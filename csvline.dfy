/**
  The CSV field splitter inside loadCitiesFromCSV: one pass over the characters of a
  line, a flag that a double quote toggles, and a field that ends at every comma met
  while the flag is off. Quote characters are dropped and every field is trimmed.
*/
module CsvLine {

  import opened QtText

  /** What the character loop has built so far: the finished fields (untrimmed), the
      field being collected, and whether the loop is inside a quoted span. */
  datatype SplitState = SplitState(done: seq<string>, current: string, inQuotes: bool)

  /** One iteration of the character loop. */
  function Step(st: SplitState, c: char): SplitState {
    if c == '"' then st.(inQuotes := !st.inQuotes)
    else if c == ',' && !st.inQuotes then SplitState(st.done + [st.current], "", st.inQuotes)
    else st.(current := st.current + [c])
  }

  /** The state after the loop has read all of s, from left to right. */
  function Scan(s: string): SplitState
    decreases |s|
  {
    if s == [] then SplitState([], "", false) else Step(Scan(s[..|s| - 1]), s[|s| - 1])
  }

  /** Number of occurrences of c in s. */
  function Occurrences(s: string, c: char): nat {
    multiset(s)[c]
  }

  /** Commas of s that are preceded by an even number of double quotes, so that lie
      outside every quoted span. */
  function UnquotedCommas(s: string): nat
    decreases |s|
  {
    if s == [] then 0
    else
      var p := s[..|s| - 1];
      UnquotedCommas(p) + (if s[|s| - 1] == ',' && Occurrences(p, '"') % 2 == 0 then 1 else 0)
  }

  /** The strings of a non-empty list, with sep between neighbours. */
  function Join(xs: seq<string>, sep: char): string
    requires |xs| > 0
    decreases |xs|
  {
    if |xs| == 1 then xs[0] else Join(xs[..|xs| - 1], sep) + [sep] + xs[|xs| - 1]
  }

  /** The inQuotes flag tracks the parity of the quotes read so far. */
  lemma {:induction false} ScanParity(s: string)
    ensures Scan(s).inQuotes <==> Occurrences(s, '"') % 2 == 1
    decreases |s|
  {
    if s != [] {
      var p := s[..|s| - 1];
      assert s == p + [s[|s| - 1]];
      ScanParity(p);
    }
  }

  /** One finished field per comma outside quotes. */
  lemma {:induction false} ScanCount(s: string)
    ensures |Scan(s).done| == UnquotedCommas(s)
    decreases |s|
  {
    if s != [] {
      var p := s[..|s| - 1];
      ScanCount(p);
      ScanParity(p);
    }
  }

  /** Neither a finished field nor the current one ever holds a double quote. */
  lemma {:induction false} ScanQuoteFree(s: string)
    ensures '"' !in Scan(s).current
    ensures forall i :: 0 <= i < |Scan(s).done| ==> '"' !in Scan(s).done[i]
    decreases |s|
  {
    if s != [] {
      ScanQuoteFree(s[..|s| - 1]);
    }
  }

  /** Appending to the last string of a list appends to its join. */
  lemma JoinExtendLast(xs: seq<string>, a: string, b: string, sep: char)
    ensures Join(xs + [a + b], sep) == Join(xs + [a], sep) + b
  {
    if xs != [] {
      assert (xs + [a + b])[..|xs|] == xs;
      assert (xs + [a])[..|xs|] == xs;
    }
  }

  /** Joining the untrimmed fields with commas gives back the line without its quotes:
      the loop loses nothing but the quote characters. */
  lemma {:induction false} ScanJoin(s: string)
    ensures Join(Scan(s).done + [Scan(s).current], ',') == RemoveChar(s, '"')
    decreases |s|
  {
    if s != [] {
      var p := s[..|s| - 1];
      var c := s[|s| - 1];
      ScanJoin(p);
      var st := Scan(p);
      if c == '"' {
      } else if c == ',' && !st.inQuotes {
        var xs := st.done + [st.current] + [""];
        assert xs[..|xs| - 1] == st.done + [st.current];
      } else {
        JoinExtendLast(st.done, st.current, [c], ',');
      }
    }
  }

  /** The fields of a line before trimming. */
  function RawFields(line: string): (r: seq<string>)
    ensures |r| == UnquotedCommas(line) + 1
    ensures forall i :: 0 <= i < |r| ==> '"' !in r[i]
    ensures Join(r, ',') == RemoveChar(line, '"')
  {
    ScanCount(line);
    ScanQuoteFree(line);
    ScanJoin(line);
    Scan(line).done + [Scan(line).current]
  }

  /** Every string of xs trimmed. */
  function TrimAll(xs: seq<string>): (r: seq<string>)
    ensures |r| == |xs| && forall i :: 0 <= i < |xs| ==> r[i] == Trim(xs[i])
  {
    seq(|xs|, i requires 0 <= i < |xs| => Trim(xs[i]))
  }

  lemma TrimAllSnoc(xs: seq<string>, x: string)
    ensures TrimAll(xs + [x]) == TrimAll(xs) + [Trim(x)]
  {
  }

  /** The fields the splitter produces for a line: at least one, one more than the
      commas outside quotes, none with a quote character, each one trimmed. */
  function SplitLine(line: string): (r: seq<string>)
    ensures |r| == UnquotedCommas(line) + 1
    ensures forall i :: 0 <= i < |r| ==> '"' !in r[i] && IsTrimmed(r[i])
  {
    var raw := RawFields(line);
    var r := TrimAll(raw);
    assert forall i :: 0 <= i < |r| ==> '"' !in r[i] by {
      forall i | 0 <= i < |r| ensures '"' !in r[i] {
        assert '"' !in raw[i];
      }
    }
    r
  }

  /** The character loop of loadCitiesFromCSV (citysearch.cpp:136-151). */
  method SplitFields(line: string) returns (fields: seq<string>)
    ensures fields == SplitLine(line)
    ensures |fields| == UnquotedCommas(line) + 1
    ensures forall i :: 0 <= i < |fields| ==> '"' !in fields[i] && IsTrimmed(fields[i])
  {
    fields := [];
    var inQuotes := false;
    var currentField := "";
    for i := 0 to |line|
      invariant Scan(line[..i]).current == currentField
      invariant Scan(line[..i]).inQuotes == inQuotes
      invariant fields == TrimAll(Scan(line[..i]).done)
    {
      ghost var st := Scan(line[..i]);
      var c := line[i];
      assert line[..i + 1][..i] == line[..i];
      assert Scan(line[..i + 1]) == Step(st, c);
      if c == '"' {
        inQuotes := !inQuotes;
      } else if c == ',' && !inQuotes {
        TrimAllSnoc(st.done, currentField);
        fields := fields + [Trim(currentField)];
        currentField := "";
      } else {
        currentField := currentField + [c];
      }
    }
    assert line[..|line|] == line;
    TrimAllSnoc(Scan(line).done, currentField);
    fields := fields + [Trim(currentField)];
  }
}
