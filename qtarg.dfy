/**
  QString::arg(const QString &) as getSearchString uses it: the escapes %n (n one
  or two decimal digits, optionally written %Ln) with the lowest number are all
  replaced by the argument; a string without escapes comes back unchanged.
*/
module QtArg {

  import opened Options

  predicate IsDigit(c: char) {
    '0' <= c <= '9'
  }

  function DigitValue(c: char): nat
    requires IsDigit(c)
  {
    (c as int) - ('0' as int)
  }

  /** The escape that starts at position i of s, as its length and number. */
  function EscapeAt(s: string, i: nat): (r: Option<(nat, nat)>)
    requires i < |s|
    ensures r.Some? ==> 2 <= r.value.0 && i + r.value.0 <= |s| && s[i] == '%'
    ensures r.Some? ==> r.value.1 <= 99
  {
    if s[i] != '%' then None
    else
      var j := if i + 1 < |s| && s[i + 1] == 'L' then i + 2 else i + 1;
      if j < |s| && IsDigit(s[j]) then
        if j + 1 < |s| && IsDigit(s[j + 1]) then
          Some((j + 2 - i, 10 * DigitValue(s[j]) + DigitValue(s[j + 1])))
        else Some((j + 1 - i, DigitValue(s[j])))
      else None
  }

  function MinOption(n: nat, o: Option<nat>): nat {
    if o.Some? && o.value < n then o.value else n
  }

  /** The lowest escape number from position i on, scanning left to right and
      resuming after each escape found. */
  function LowestEscape(s: string, i: nat): Option<nat>
    decreases |s| - i
  {
    if i >= |s| then None
    else match EscapeAt(s, i)
      case None => LowestEscape(s, i + 1)
      case Some((len, num)) => Some(MinOption(num, LowestEscape(s, i + len)))
  }

  /** s from position i on, with every escape numbered n replaced by a. */
  function ReplaceEscapes(s: string, i: nat, n: nat, a: string): string
    decreases |s| - i
  {
    if i >= |s| then []
    else match EscapeAt(s, i)
      case None => [s[i]] + ReplaceEscapes(s, i + 1, n, a)
      case Some((len, num)) =>
        (if num == n then a else s[i..i + len]) + ReplaceEscapes(s, i + len, n, a)
  }

  /** QString::arg with one string argument. A string without '%' holds no escape
      and comes back unchanged. */
  function Arg(s: string, a: string): (r: string)
    ensures '%' !in s ==> r == s
  {
    if '%' !in s then
      PlainStretchLowest(s, 0, |s|);
      s
    else
      match LowestEscape(s, 0)
      case None => s
      case Some(n) => ReplaceEscapes(s, 0, n, a)
  }

  /** A stretch without '%' holds no escape ... */
  lemma {:induction false} PlainStretchLowest(s: string, i: nat, j: nat)
    requires i <= j <= |s|
    requires forall k :: i <= k < j ==> s[k] != '%'
    ensures LowestEscape(s, i) == LowestEscape(s, j)
    decreases j - i
  {
    if i < j {
      assert EscapeAt(s, i) == None;
      PlainStretchLowest(s, i + 1, j);
    }
  }

  /** ... and is copied unchanged. */
  lemma {:induction false} PlainStretchCopy(s: string, i: nat, j: nat, n: nat, a: string)
    requires i <= j <= |s|
    requires forall k :: i <= k < j ==> s[k] != '%'
    ensures ReplaceEscapes(s, i, n, a) == s[i..j] + ReplaceEscapes(s, j, n, a)
    decreases j - i
  {
    if i == j {
      assert s[i..j] == [];
    } else {
      assert EscapeAt(s, i) == None;
      var rest := ReplaceEscapes(s, i + 1, n, a);
      assert ReplaceEscapes(s, i, n, a) == [s[i]] + rest;
      PlainStretchCopy(s, i + 1, j, n, a);
      assert s[i..j] == [s[i]] + s[i + 1..j];
    }
  }

  /** The tail ", %2" of a string: one escape, numbered 2. */
  lemma SecondEscapeTail(s: string, m: nat, n: nat, a: string)
    requires m + 4 == |s| && s[m..] == ", %2"
    ensures LowestEscape(s, m) == Some(2)
    ensures ReplaceEscapes(s, m, n, a) == ", " + (if n == 2 then a else "%2")
  {
    assert s[m] == ',' && s[m + 1] == ' ' && s[m + 2] == '%' && s[m + 3] == '2';
    assert EscapeAt(s, m) == None;
    assert EscapeAt(s, m + 1) == None;
    assert EscapeAt(s, m + 2) == Some((2, 2));
    assert s[m + 2..m + 4] == "%2";
    assert LowestEscape(s, m + 4) == None;
    assert LowestEscape(s, m + 2) == Some(2);
    assert ReplaceEscapes(s, m + 4, n, a) == [];
    var tail := if n == 2 then a else "%2";
    assert ReplaceEscapes(s, m + 2, n, a) == tail + [];
    assert ReplaceEscapes(s, m + 1, n, a) == [' '] + tail;
    assert ReplaceEscapes(s, m, n, a) == [','] + ([' '] + tail);
  }

  /** The tail "%1, %2" of a string: its lowest escape is %1, and replacing it keeps
      the ", %2" that follows. */
  lemma FirstEscapeTail(s: string, m: nat, a: string)
    requires m + 6 == |s| && s[m..] == "%1, %2"
    ensures LowestEscape(s, m) == Some(1)
    ensures ReplaceEscapes(s, m, 1, a) == a + ", %2"
  {
    assert s[m] == '%' && s[m + 1] == '1' && s[m + 2] == ',';
    assert EscapeAt(s, m) == Some((2, 1));
    assert s[m + 2..] == ", %2";
    SecondEscapeTail(s, m + 2, 1, a);
  }

  /** The template of getSearchString. */
  const Template: string := "%1, %2"

  lemma FirstArg(name: string)
    ensures Arg(Template, name) == name + ", %2"
  {
    assert EscapeAt(Template, 0) == Some((2, 1));
    assert EscapeAt(Template, 4) == Some((2, 2));
    assert LowestEscape(Template, 0) == Some(1);
  }

  /** The two substitutions of getSearchString give plain concatenation when the
      name holds no '%'. */
  lemma {:induction false} ArgPair(name: string, country: string)
    requires '%' !in name
    ensures Arg(Arg(Template, name), country) == name + ", " + country
  {
    FirstArg(name);
    var s := name + ", %2";
    var m := |name|;
    assert s[m..] == ", %2";
    SecondEscapeTail(s, m, 2, country);
    PlainStretchLowest(s, 0, m);
    PlainStretchCopy(s, 0, m, 2, country);
    assert s[0..m] == name;
  }

  /** A name ending in the escape %1 takes the country in place of that escape, and
      the template's own %2 is left in the result. */
  lemma {:induction false} ArgPairEscapedName(p: string, country: string)
    requires '%' !in p
    ensures Arg(Arg(Template, p + "%1"), country) == p + country + ", %2"
  {
    FirstArg(p + "%1");
    var s := p + "%1" + ", %2";
    var m := |p|;
    assert s[m..] == "%1, %2";
    FirstEscapeTail(s, m, country);
    PlainStretchLowest(s, 0, m);
    PlainStretchCopy(s, 0, m, 1, country);
    assert s[0..m] == p;
  }
}
