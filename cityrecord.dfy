/** The city record of the search box (struct CityData in citysearch.h). */
module CityRecord {

  import QtArg
  import opened Options

  /** One city of the table. Latitude and longitude are whatever the number
      parser produced for the third and fourth CSV fields. */
  datatype CityData = CityData(name: string, country: string, latitude: real, longitude: real)
  {
    /** getSearchString as intended: the name, then ", ", then the country; this is
        the key under which the loader stores the record and the text the completer
        offers. */
    function SearchString(): (r: string)
      ensures |r| == |name| + 2 + |country|
      ensures r[|name|..|name| + 2] == ", "
    {
      name + ", " + country
    }
  }

  /** The value-initialised CityData() returned when a lookup finds nothing. */
  const EmptyCity := CityData("", "", 0.0, 0.0)

  /** The search string splits back into the name, the separator ", " and the country. */
  lemma SearchStringParts(x: CityData)
    ensures var r := x.SearchString();
            |r| == |x.name| + 2 + |x.country|
            && r[..|x.name|] == x.name && r[|x.name|..|x.name| + 2] == ", "
            && r[|x.name| + 2..] == x.country
  {
    var r := x.SearchString();
    assert r[..|x.name|] == x.name;
    assert r[|x.name| + 2..] == x.country;
  }

  /** In the search string of a comma-free name, the first comma is the one that
      follows the name. */
  lemma FirstCommaAfterName(x: CityData)
    requires ',' !in x.name
    ensures x.SearchString()[|x.name|] == ','
    ensures forall j :: 0 <= j < |x.name| ==> x.SearchString()[j] != ','
  {
    SearchStringParts(x);
  }

  /** A search string belongs to one (name, country) pair as long as neither name
      holds a comma (a name can only hold one if it was quoted in the file). */
  lemma KeyDeterminesNameAndCountry(a: CityData, b: CityData)
    requires ',' !in a.name && ',' !in b.name
    requires a.SearchString() == b.SearchString()
    ensures a.name == b.name && a.country == b.country
  {
    var k := a.SearchString();
    FirstCommaAfterName(a);
    FirstCommaAfterName(b);
    SearchStringParts(a);
    SearchStringParts(b);
    assert |a.name| == |b.name|;
    assert a.name == k[..|a.name|] == b.name;
    assert a.country == k[|a.name| + 2..] == b.country;
  }

  /** getSearchString as written: "%1, %2" with the name substituted, and then the
      country substituted into that result. It agrees with the intended key whenever
      the name holds no '%'. */
  function ArgSearchString(x: CityData): (r: string)
    ensures '%' !in x.name ==> r == x.SearchString()
  {
    var r := QtArg.Arg(QtArg.Arg(QtArg.Template, x.name), x.country);
    if '%' !in x.name then QtArg.ArgPair(x.name, x.country); r else r
  }

  /** A name holding an escape of its own catches the country: for a name p + "%1"
      and any country the written code yields p + country + ", %2" (for the name "a%1"
      and the country "X", "aX, %2" where "a%1, X" is meant). */
  lemma EscapeInNameMisplacesCountry(p: string, country: string)
    requires '%' !in p
    ensures var x := CityData(p + "%1", country, 0.0, 0.0);
            ArgSearchString(x) == p + country + ", %2" && ArgSearchString(x) != x.SearchString()
  {
    var x := CityData(p + "%1", country, 0.0, 0.0);
    QtArg.ArgPairEscapedName(p, country);
    var written := p + country + ", %2";
    var intended := x.SearchString();
    assert intended == p + "%1" + ", " + country;
    // The intended key holds one more '1' than the written one.
    assert multiset(written)['1'] == multiset(p)['1'] + multiset(country)['1'];
    assert multiset(intended)['1'] == multiset(p)['1'] + 1 + multiset(country)['1'];
  }
}
