/**
  The city lookup behind the "Type to locate" box (class CitySearchWidget):
  loading the city table from the lines of a CSV file, finding a city for the text
  typed into the box, and deciding whether activating the box selects a city.
*/
module CitySearch {

  import opened Options
  import opened QtText
  import opened CityRecord
  import opened CsvLine

  /** QString::toDouble on one field: the value, or None when the conversion
      reports failure. */
  type NumberParser = string -> Option<real>

  /** The record the fields of a line describe, if they describe one: at least four
      fields, a name that is not empty once its quotes are removed and it is trimmed,
      and a latitude and a longitude that convert. */
  function ParseFields(fields: seq<string>, toDouble: NumberParser): (r: Option<CityData>)
    ensures r.Some? ==> r.value.name != "" && IsTrimmed(r.value.name) && IsTrimmed(r.value.country)
  {
    if |fields| >= 4 then
      var name := Trim(RemoveChar(fields[0], '"'));
      var country := Trim(RemoveChar(fields[1], '"'));
      var lat := toDouble(fields[2]);
      var lon := toDouble(fields[3]);
      if lat.Some? && lon.Some? && name != "" then
        Some(CityData(name, country, lat.value, lon.value))
      else None
    else None
  }

  /** What one line after the header contributes to the table: nothing for a line
      that is blank once trimmed, otherwise what its fields describe. */
  function ParseLine(raw: string, toDouble: NumberParser): (r: Option<CityData>)
    ensures r.Some? ==> r.value.name != ""
  {
    var line := Trim(raw);
    if line == "" then None else ParseFields(SplitLine(line), toDouble)
  }

  /** A line is accepted exactly when, after trimming, it has at least three commas
      outside quotes, a non-empty first field, and third and fourth fields that
      parse as numbers; the record is made of the first four fields as split (the
      extra quote removal and trimming change nothing), and later fields are ignored. */
  lemma LineAccepted(raw: string, toDouble: NumberParser)
    ensures var f := SplitLine(Trim(raw));
            ParseLine(raw, toDouble).Some? <==>
              UnquotedCommas(Trim(raw)) >= 3 && f[0] != ""
              && toDouble(f[2]).Some? && toDouble(f[3]).Some?
    ensures var f := SplitLine(Trim(raw));
            ParseLine(raw, toDouble).Some? ==>
              ParseLine(raw, toDouble).value
                == CityData(f[0], f[1], toDouble(f[2]).value, toDouble(f[3]).value)
  {
    var line := Trim(raw);
    var f := SplitLine(line);
    if |f| >= 4 {
      RemoveAbsent(f[0], '"');
      RemoveAbsent(f[1], '"');
      TrimmedFixed(f[0]);
      TrimmedFixed(f[1]);
    }
    if line == "" {
      assert UnquotedCommas(line) == 0;
    }
  }

  /** A line that is blank once trimmed never yields a record. */
  lemma BlankLineRejected(raw: string, toDouble: NumberParser)
    requires Trim(raw) == ""
    ensures ParseLine(raw, toDouble) == None
  {
  }

  /** What a parse of each line keeps, in line order: the values of the lines it
      accepts. */
  function Collect(lines: seq<string>, parse: string -> Option<CityData>): seq<CityData>
    decreases |lines|
  {
    if lines == [] then []
    else
      Collect(lines[..|lines| - 1], parse)
      + (match parse(lines[|lines| - 1])
         case Some(c) => [c]
         case None => [])
  }

  lemma CollectLast(lines: seq<string>, parse: string -> Option<CityData>)
    requires lines != []
    ensures var last := parse(lines[|lines| - 1]);
            Collect(lines, parse)
              == Collect(lines[..|lines| - 1], parse) + (if last.Some? then [last.value] else [])
  {
  }

  lemma {:induction false} CollectAppend(a: seq<string>, b: seq<string>, parse: string -> Option<CityData>)
    ensures Collect(a + b, parse) == Collect(a, parse) + Collect(b, parse)
    decreases |b|
  {
    if b == [] {
      assert a + b == a;
    } else {
      var b' := b[..|b| - 1];
      assert (a + b)[..|a + b| - 1] == a + b';
      assert (a + b)[|a + b| - 1] == b[|b| - 1];
      CollectLast(a + b, parse);
      CollectLast(b, parse);
      CollectAppend(a, b', parse);
    }
  }

  lemma {:induction false} CollectFrom(lines: seq<string>, parse: string -> Option<CityData>, c: CityData)
    requires c in Collect(lines, parse)
    ensures exists i :: 0 <= i < |lines| && parse(lines[i]) == Some(c)
    decreases |lines|
  {
    var p := lines[..|lines| - 1];
    var n := |lines| - 1;
    CollectLast(lines, parse);
    if c in Collect(p, parse) {
      CollectFrom(p, parse, c);
      var i :| 0 <= i < |p| && parse(p[i]) == Some(c);
      assert p[i] == lines[i];
    } else {
      assert parse(lines[n]) == Some(c);
    }
  }

  lemma {:induction false} CollectHas(lines: seq<string>, parse: string -> Option<CityData>, c: CityData, i: int)
    requires 0 <= i < |lines| && parse(lines[i]) == Some(c)
    ensures c in Collect(lines, parse)
    decreases |lines|
  {
    var p := lines[..|lines| - 1];
    var n := |lines| - 1;
    CollectLast(lines, parse);
    if i < n {
      assert p[i] == lines[i];
      CollectHas(p, parse, c, i);
    } else {
      assert c == (Collect(p, parse) + [c])[|Collect(p, parse)|];
    }
  }

  /** The records of some lines after the header, in file order. */
  function Records(lines: seq<string>, toDouble: NumberParser): seq<CityData> {
    Collect(lines, (line: string) => ParseLine(line, toDouble))
  }

  /** Reading line j appends what that line describes. */
  lemma RecordsStep(lines: seq<string>, j: nat, toDouble: NumberParser)
    requires j < |lines|
    ensures var last := ParseLine(lines[j], toDouble);
            Records(lines[..j + 1], toDouble)
              == Records(lines[..j], toDouble) + (if last.Some? then [last.value] else [])
  {
    assert lines[..j + 1][..j] == lines[..j];
    CollectLast(lines[..j + 1], (line: string) => ParseLine(line, toDouble));
  }

  /** Lines are read one at a time: the records of a file are those of its first
      part followed by those of the rest. */
  lemma RecordsAppend(a: seq<string>, b: seq<string>, toDouble: NumberParser)
    ensures Records(a + b, toDouble) == Records(a, toDouble) + Records(b, toDouble)
  {
    CollectAppend(a, b, (line: string) => ParseLine(line, toDouble));
  }

  /** A blank line anywhere in the file adds nothing. */
  lemma BlankLineIgnored(a: seq<string>, blank: string, b: seq<string>, toDouble: NumberParser)
    requires Trim(blank) == ""
    ensures Records(a + [blank] + b, toDouble) == Records(a + b, toDouble)
  {
    assert Records([blank], toDouble) == [] by {
      BlankLineRejected(blank, toDouble);
      CollectLast([blank], (line: string) => ParseLine(line, toDouble));
      assert [blank][..0] == [];
    }
    RecordsAppend(a + [blank], b, toDouble);
    RecordsAppend(a, [blank], toDouble);
    RecordsAppend(a, b, toDouble);
  }

  /** Line i of lines is accepted and describes c. */
  predicate LineGives(lines: seq<string>, toDouble: NumberParser, i: int, c: CityData) {
    0 <= i < |lines| && ParseLine(lines[i], toDouble) == Some(c)
  }

  /** The loaded records are exactly what the accepted lines describe. */
  lemma RecordsFromLines(lines: seq<string>, toDouble: NumberParser, c: CityData)
    ensures c in Records(lines, toDouble) <==> exists i :: LineGives(lines, toDouble, i, c)
  {
    var parse := (line: string) => ParseLine(line, toDouble);
    if c in Records(lines, toDouble) {
      CollectFrom(lines, parse, c);
      var i :| 0 <= i < |lines| && parse(lines[i]) == Some(c);
      assert LineGives(lines, toDouble, i, c);
    }
    if exists i :: LineGives(lines, toDouble, i, c) {
      var i :| LineGives(lines, toDouble, i, c);
      CollectHas(lines, parse, c, i);
    }
  }

  /** The lines the loader reads as records: all but the first, which is the header. */
  function DataLines(lines: seq<string>): seq<string> {
    if lines == [] then [] else lines[1..]
  }

  /** The first line never adds a record, whatever it holds. */
  lemma HeaderIgnored(header: string, rest: seq<string>, toDouble: NumberParser)
    ensures Records(DataLines([header] + rest), toDouble) == Records(rest, toDouble)
  {
    assert ([header] + rest)[1..] == rest;
  }

  /** The string list given to the completer: the search strings in record order. */
  function SearchKeys(cs: seq<CityData>): (r: seq<string>)
    ensures |r| == |cs| && forall i :: 0 <= i < |cs| ==> r[i] == cs[i].SearchString()
  {
    seq(|cs|, i requires 0 <= i < |cs| => cs[i].SearchString())
  }

  /** cityMap after storing the records one after another under their search strings. */
  function KeyIndex(cs: seq<CityData>): map<string, CityData>
    decreases |cs|
  {
    if cs == [] then map[]
    else KeyIndex(cs[..|cs| - 1])[cs[|cs| - 1].SearchString() := cs[|cs| - 1]]
  }

  lemma KeyIndexSnoc(cs: seq<CityData>, c: CityData)
    ensures KeyIndex(cs + [c]) == KeyIndex(cs)[c.SearchString() := c]
  {
    assert (cs + [c])[..|cs|] == cs;
  }

  lemma SearchKeysSnoc(cs: seq<CityData>, c: CityData)
    ensures SearchKeys(cs + [c]) == SearchKeys(cs) + [c.SearchString()]
  {
  }

  /** Every record has a name. */
  lemma RecordsNamed(lines: seq<string>, toDouble: NumberParser)
    ensures forall c :: c in Records(lines, toDouble) ==> c.name != ""
  {
    forall c | c in Records(lines, toDouble)
      ensures c.name != ""
    {
      RecordsFromLines(lines, toDouble, c);
    }
  }

  /** A key is in the index exactly when some record has it as search string. */
  lemma {:induction false} KeyIndexKeys(cs: seq<CityData>, k: string)
    ensures k in KeyIndex(cs) <==> exists i :: 0 <= i < |cs| && cs[i].SearchString() == k
    decreases |cs|
  {
    if cs != [] {
      var p := cs[..|cs| - 1];
      var n := |cs| - 1;
      KeyIndexSnoc(p, cs[n]);
      assert p + [cs[n]] == cs;
      KeyIndexKeys(p, k);
      if exists i :: 0 <= i < |cs| && cs[i].SearchString() == k {
        var i :| 0 <= i < |cs| && cs[i].SearchString() == k;
        if i < n {
          assert p[i] == cs[i];
        }
      }
      if k in KeyIndex(p) {
        var i :| 0 <= i < |p| && p[i].SearchString() == k;
        assert cs[i] == p[i];
      }
    }
  }

  /** A key of the index maps to the last record with that search string. */
  lemma {:induction false} KeyIndexLast(cs: seq<CityData>, k: string)
    requires k in KeyIndex(cs)
    ensures exists i :: 0 <= i < |cs| && cs[i].SearchString() == k && KeyIndex(cs)[k] == cs[i]
                        && forall j :: i < j < |cs| ==> cs[j].SearchString() != k
    decreases |cs|
  {
    var p := cs[..|cs| - 1];
    var n := |cs| - 1;
    KeyIndexSnoc(p, cs[n]);
    assert p + [cs[n]] == cs;
    if cs[n].SearchString() != k {
      KeyIndexLast(p, k);
      var i :| 0 <= i < |p| && p[i].SearchString() == k && KeyIndex(p)[k] == p[i]
               && forall j :: i < j < |p| ==> p[j].SearchString() != k;
      assert cs[i] == p[i];
      assert forall j :: i < j < |cs| ==> cs[j].SearchString() != k by {
        forall j | i < j < |cs| ensures cs[j].SearchString() != k {
          if j < n {
            assert cs[j] == p[j];
          }
        }
      }
    }
  }

  /** Every key of the index is the search string of the record stored under it,
      and that record is one of the loaded ones. */
  lemma KeyIndexSound(cs: seq<CityData>)
    ensures forall k :: k in KeyIndex(cs) <==> exists i :: 0 <= i < |cs| && cs[i].SearchString() == k
    ensures forall k :: k in KeyIndex(cs) ==> KeyIndex(cs)[k].SearchString() == k && KeyIndex(cs)[k] in cs
  {
    forall k
      ensures k in KeyIndex(cs) <==> exists i :: 0 <= i < |cs| && cs[i].SearchString() == k
      ensures k in KeyIndex(cs) ==> KeyIndex(cs)[k].SearchString() == k && KeyIndex(cs)[k] in cs
    {
      KeyIndexKeys(cs, k);
      if k in KeyIndex(cs) {
        KeyIndexLast(cs, k);
      }
    }
  }

  /** The index never holds more entries than there are records. */
  lemma {:induction false} KeyIndexSize(cs: seq<CityData>)
    ensures |KeyIndex(cs)| <= |cs|
    decreases |cs|
  {
    if cs != [] {
      KeyIndexSize(cs[..|cs| - 1]);
    }
  }

  /** Position, among the first n records, of one whose search string is the least
      (in key order) of those equal to s ignoring case; None when there is none. */
  function LeastFoldedKey(cs: seq<CityData>, s: string, n: nat): (r: Option<nat>)
    requires n <= |cs|
    ensures r.None? <==> forall i :: 0 <= i < n ==> !FoldEq(cs[i].SearchString(), s)
    ensures r.Some? ==> r.value < n && FoldEq(cs[r.value].SearchString(), s)
    ensures r.Some? ==> forall i :: 0 <= i < n && FoldEq(cs[i].SearchString(), s) ==>
                          KeyLessEq(cs[r.value].SearchString(), cs[i].SearchString())
  {
    if n == 0 then None
    else
      var rest := LeastFoldedKey(cs, s, n - 1);
      var k := cs[n - 1].SearchString();
      if !FoldEq(k, s) then rest
      else if rest.None? then Some(n - 1)
      else
        var m := cs[rest.value].SearchString();
        if KeyLess(k, m) then
          LowerBoundShift(cs, s, n - 1, m, k);
          Some(n - 1)
        else
          KeyLessTotal(k, m);
          rest
  }

  /** Over all records, the least matching search string is the least key of the
      index that equals s ignoring case. */
  lemma FoldedKeyInIndex(cs: seq<CityData>, s: string)
    ensures LeastFoldedKey(cs, s, |cs|).None? <==>
              forall k :: k in KeyIndex(cs) ==> !FoldEq(k, s)
    ensures LeastFoldedKey(cs, s, |cs|).Some? ==>
              var k := cs[LeastFoldedKey(cs, s, |cs|).value].SearchString();
              k in KeyIndex(cs) && FoldEq(k, s)
              && forall k' :: k' in KeyIndex(cs) && FoldEq(k', s) ==> KeyLessEq(k, k')
  {
    KeyIndexSound(cs);
  }

  /** A key below a lower bound of the matching keys is a lower bound too. */
  lemma LowerBoundShift(cs: seq<CityData>, s: string, n: nat, m: string, k: string)
    requires n <= |cs|
    requires KeyLess(k, m)
    requires forall i :: 0 <= i < n && FoldEq(cs[i].SearchString(), s) ==> KeyLessEq(m, cs[i].SearchString())
    ensures forall i :: 0 <= i < n && FoldEq(cs[i].SearchString(), s) ==> KeyLessEq(k, cs[i].SearchString())
  {
    forall i | 0 <= i < n && FoldEq(cs[i].SearchString(), s)
      ensures KeyLessEq(k, cs[i].SearchString())
    {
      if m != cs[i].SearchString() {
        KeyLessTransitive(k, m, cs[i].SearchString());
      }
    }
  }

  /** Position of the first of the first n records whose name equals s ignoring
      case; None when there is none. */
  function FirstNameMatch(cs: seq<CityData>, s: string, n: nat): (r: Option<nat>)
    requires n <= |cs|
    ensures r.None? <==> forall i :: 0 <= i < n ==> !FoldEq(cs[i].name, s)
    ensures r.Some? ==> r.value < n && FoldEq(cs[r.value].name, s)
                        && forall j :: 0 <= j < r.value ==> !FoldEq(cs[j].name, s)
  {
    if n == 0 then None
    else
      var rest := FirstNameMatch(cs, s, n - 1);
      if rest.Some? then rest
      else if FoldEq(cs[n - 1].name, s) then Some(n - 1)
      else None
  }

  /** findCity's three stages over the records cs, for the trimmed text s. */
  function Lookup(cs: seq<CityData>, s: string): (r: CityData)
    ensures r in cs || r == EmptyCity
  {
    KeyIndexSound(cs);
    var index := KeyIndex(cs);
    if s in index then index[s]
    else
      match LeastFoldedKey(cs, s, |cs|)
      case Some(i) => index[cs[i].SearchString()]
      case None =>
        match FirstNameMatch(cs, s, |cs|)
        case Some(i) => cs[i]
        case None => EmptyCity
  }

  lemma LookupFolded(cs: seq<CityData>, s: string)
    ensures s !in KeyIndex(cs) && (exists k :: k in KeyIndex(cs) && FoldEq(k, s)) ==>
            exists k :: k in KeyIndex(cs) && FoldEq(k, s) && Lookup(cs, s) == KeyIndex(cs)[k]
                        && forall k' :: k' in KeyIndex(cs) && FoldEq(k', s) ==> KeyLessEq(k, k')
  {
    FoldedKeyInIndex(cs, s);
  }

  lemma LookupName(cs: seq<CityData>, s: string)
    ensures (forall k :: k in KeyIndex(cs) ==> !FoldEq(k, s))
            && (exists i :: 0 <= i < |cs| && FoldEq(cs[i].name, s)) ==>
            exists i :: 0 <= i < |cs| && Lookup(cs, s) == cs[i] && FoldEq(cs[i].name, s)
                        && forall j :: 0 <= j < i ==> !FoldEq(cs[j].name, s)
  {
    if (forall k :: k in KeyIndex(cs) ==> !FoldEq(k, s))
       && (exists i :: 0 <= i < |cs| && FoldEq(cs[i].name, s)) {
      assert s !in KeyIndex(cs) by {
        assert FoldEq(s, s);
      }
      FoldedKeyInIndex(cs, s);
      var m := FirstNameMatch(cs, s, |cs|);
      assert m.Some?;
      assert Lookup(cs, s) == cs[m.value];
    }
  }

  lemma LookupNone(cs: seq<CityData>, s: string)
    ensures (forall k :: k in KeyIndex(cs) ==> !FoldEq(k, s))
            && (forall i :: 0 <= i < |cs| ==> !FoldEq(cs[i].name, s)) ==>
            Lookup(cs, s) == EmptyCity
  {
    if forall k :: k in KeyIndex(cs) ==> !FoldEq(k, s) {
      assert s !in KeyIndex(cs) by {
        assert FoldEq(s, s);
      }
      FoldedKeyInIndex(cs, s);
    }
  }


  /** What activating the search box does. */
  datatype Activation =
    | Nothing                      // blank input: the slot returns at once
    | Select(city: CityData)       // citySelected(city) is emitted
    | MarkNotFound                 // the box is outlined in red for a moment

  /** The state of the search widget that the loader maintains. */
  class CitySearchWidget {

    var cities: seq<CityData>
    var cityMap: map<string, CityData>
    /** The string list last handed to the completer's model. */
    var completerNames: seq<string>

    /** The map is the records stored one after another under their search strings,
        the completer list is their search strings, and every loaded city has a name. */
    ghost predicate Valid()
      reads this
    {
      && cityMap == KeyIndex(cities)
      && completerNames == SearchKeys(cities)
      && forall c :: c in cities ==> c.name != ""
    }

    constructor ()
      ensures Valid()
      ensures cities == [] && cityMap == map[] && completerNames == []
    {
      cities := [];
      cityMap := map[];
      completerNames := [];
    }

    /** getCityCount: the number of loaded records; it bounds the number of distinct
        search strings and equals the length of the completer list. */
    function CityCount(): (n: nat)
      reads this
      requires Valid()
      ensures n == |completerNames| && |cityMap| <= n
    {
      KeyIndexSize(cities);
      |cities|
    }

    /** One pass of the line loop of loadCitiesFromCSV: trim the line, skip it when
        blank, split it, and build the record when the fields are acceptable. */
    static method ReadRecord(raw: string, toDouble: NumberParser) returns (record: Option<CityData>)
      ensures record == ParseLine(raw, toDouble)
      ensures record.Some? ==> record.value.name != ""
    {
      var line := Trim(raw);
      if line == "" {
        return None;
      }
      var fields := SplitFields(line);
      record := None;
      if |fields| >= 4 {
        var name := Trim(RemoveChar(fields[0], '"'));
        var country := Trim(RemoveChar(fields[1], '"'));
        var lat := toDouble(fields[2]);
        var lon := toDouble(fields[3]);
        if lat.Some? && lon.Some? && name != "" {
          record := Some(CityData(name, country, lat.value, lon.value));
        }
      }
    }

    /** The three updates the loader makes for an accepted record: append it to
        cities, store it in cityMap under its search string; the completer list
        is built beside them. */
    method AddCity(city: CityData)
      requires cityMap == KeyIndex(cities)
      modifies this
      ensures cities == old(cities) + [city]
      ensures cityMap == old(cityMap)[city.SearchString() := city]
      ensures cityMap == KeyIndex(cities)
      ensures completerNames == old(completerNames)
    {
      KeyIndexSnoc(cities, city);
      cities := cities + [city];
      var searchKey := city.SearchString();
      cityMap := cityMap[searchKey := city];
    }

    /** loadCitiesFromCSV, with the file given as its lines (None when it cannot be
        opened) and QString::toDouble as a parameter. */
    method LoadCitiesFromCsv(file: Option<seq<string>>, toDouble: NumberParser) returns (ok: bool)
      requires Valid()
      modifies this
      ensures Valid()
      ensures file.None? ==>
                !ok && cities == old(cities) && cityMap == old(cityMap)
                && completerNames == old(completerNames)
      ensures file.Some? ==>
                && cities == Records(DataLines(file.value), toDouble)
                && cityMap == KeyIndex(cities)
                && completerNames == SearchKeys(cities)
                && ok == (|cities| > 0)
    {
      if file.None? {
        return false;
      }
      var count := ReadLines(DataLines(file.value), toDouble);
      ok := count > 0;
    }

    /** The line loop of loadCitiesFromCSV: every data line is parsed in order,
        every accepted record is stored, and the list of search strings is
        built beside it. */
    method ReadLines(body: seq<string>, toDouble: NumberParser) returns (successCount: nat)
      modifies this
      ensures cities == Records(body, toDouble)
      ensures Valid()
      ensures successCount == |cities|
    {
      cities := [];
      cityMap := map[];
      var cityNames: seq<string> := [];
      successCount := 0;
      for j := 0 to |body|
        invariant cities == Records(body[..j], toDouble)
        invariant cityMap == KeyIndex(cities)
        invariant cityNames == SearchKeys(cities)
        invariant successCount == |cities|
      {
        var record := ReadRecord(body[j], toDouble);
        RecordsStep(body, j, toDouble);
        if record.Some? {
          AddCity(record.value);
          SearchKeysSnoc(cities[..|cities| - 1], record.value);
          cityNames := cityNames + [record.value.SearchString()];
          successCount := successCount + 1;
        }
      }
      assert body[..|body|] == body;
      RecordsNamed(body, toDouble);
      completerNames := cityNames;
    }

    /** findCity: the trimmed text as an exact key; otherwise the record under the
        least key equal to it ignoring case; otherwise the first record whose name
        equals it ignoring case; otherwise the empty city. */
    function FindCity(searchText: string): (r: CityData)
      reads this
      requires Valid()
      ensures var s := Trim(searchText);
              s in cityMap ==> r == cityMap[s]
      ensures var s := Trim(searchText);
              s !in cityMap && (exists k :: k in cityMap && FoldEq(k, s)) ==>
                exists k :: k in cityMap && FoldEq(k, s) && r == cityMap[k]
                            && forall k' :: k' in cityMap && FoldEq(k', s) ==> KeyLessEq(k, k')
      ensures var s := Trim(searchText);
              (forall k :: k in cityMap ==> !FoldEq(k, s))
              && (exists i :: 0 <= i < |cities| && FoldEq(cities[i].name, s)) ==>
                exists i :: 0 <= i < |cities| && r == cities[i] && FoldEq(cities[i].name, s)
                            && forall j :: 0 <= j < i ==> !FoldEq(cities[j].name, s)
      ensures var s := Trim(searchText);
              (forall k :: k in cityMap ==> !FoldEq(k, s))
              && (forall i :: 0 <= i < |cities| ==> !FoldEq(cities[i].name, s)) ==>
                r == EmptyCity
      ensures r in cities || r == EmptyCity
    {
      var s := Trim(searchText);
      LookupFolded(cities, s);
      LookupName(cities, s);
      LookupNone(cities, s);
      Lookup(cities, s)
    }

    /** onSearchActivated: blank text does nothing; otherwise citySelected is emitted
        exactly when some key or some city name equals the trimmed text ignoring case,
        with the city findCity returns; otherwise the box is marked. */
    function OnSearchActivated(text: string): (a: Activation)
      reads this
      requires Valid()
      ensures a == Nothing <==> Trim(text) == ""
      ensures a.Select? <==>
                Trim(text) != ""
                && ((exists k :: k in cityMap && FoldEq(k, Trim(text)))
                    || (exists i :: 0 <= i < |cities| && FoldEq(cities[i].name, Trim(text))))
      ensures a.Select? ==> a.city in cities && a.city == FindCity(text) && a.city.name != ""
    {
      var searchText := Trim(text);
      if searchText == "" then Nothing
      else
        TrimIdempotent(text);
        KeyIndexSound(cities);
        var city := FindCity(searchText);
        if city.name != "" then Select(city) else MarkNotFound
    }
  }
}
