/** Octet strings and the text helpers the codec is built from.

    An octet is a `char`, so header names and messages can be written as string literals.
    Every definition and lemma ranges over all characters, and so in particular over 0..255. */
module Octets {

  // ----- ASCII case folding -----

  function LowerChar(c: char): char {
    if 'A' <= c <= 'Z' then (c as int + 32) as char else c
  }

  function ToLower(s: string): (r: string)
    ensures |r| == |s|
  {
    seq(|s|, i requires 0 <= i < |s| => LowerChar(s[i]))
  }

  predicate EqualFold(a: string, b: string) {
    ToLower(a) == ToLower(b)
  }

  // ----- Character classes -----

  predicate IsDigit(c: char) { '0' <= c <= '9' }

  predicate IsAlphaNumeric(c: char) { IsDigit(c) || 'A' <= c <= 'Z' || 'a' <= c <= 'z' }

  predicate IsTokenChar(c: char) {
    IsAlphaNumeric(c) || c in "!#$%&'*+-.^_`|~"
  }

  predicate ValidToken(s: string) {
    s != "" && forall i :: 0 <= i < |s| ==> IsTokenChar(s[i])
  }

  /** A tab, or anything from space upwards except DEL. */
  predicate IsFieldChar(c: char) {
    c == '\t' || (c as int >= 0x20 && c as int != 0x7f)
  }

  predicate ValidFieldValue(s: string) {
    forall i :: 0 <= i < |s| ==> IsFieldChar(s[i])
  }

  predicate IsOws(c: char) { c == ' ' || c == '\t' }

  // ----- Trimming -----

  function TrimLeft(s: string): (r: string)
    ensures r == "" || !IsOws(r[0])
    ensures |r| <= |s| && r == s[|s| - |r|..]
    ensures forall i :: 0 <= i < |s| - |r| ==> IsOws(s[i])
  {
    if s != "" && IsOws(s[0]) then TrimLeft(s[1..]) else s
  }

  function TrimRight(s: string): (r: string)
    ensures r == "" || !IsOws(r[|r| - 1])
    ensures r <= s
    ensures forall i :: |r| <= i < |s| ==> IsOws(s[i])
  {
    if s != "" && IsOws(s[|s| - 1]) then TrimRight(s[..|s| - 1]) else s
  }

  function Trim(s: string): (r: string)
    ensures r != "" ==> !IsOws(r[0]) && !IsOws(r[|r| - 1])
    ensures forall i :: 0 <= i < |r| ==> r[i] in s
  {
    TrimRight(TrimLeft(s))
  }

  lemma TrimFixed(s: string)
    requires s == "" || (!IsOws(s[0]) && !IsOws(s[|s| - 1]))
    ensures Trim(s) == s
  {
  }

  lemma TrimIdempotent(s: string)
    ensures Trim(Trim(s)) == Trim(s)
  {
    TrimFixed(Trim(s));
  }

  lemma TrimKeepsFieldValue(s: string)
    requires ValidFieldValue(s)
    ensures ValidFieldValue(Trim(s))
  {
    var l := TrimLeft(s);
    assert forall i :: 0 <= i < |l| ==> l[i] == s[|s| - |l| + i];
  }

  // An OWS character next to the edge of a string does not change its trimmed form.
  lemma TrimConsOws(c: char, s: string)
    requires IsOws(c)
    ensures Trim([c] + s) == Trim(s)
  {
    assert ([c] + s)[1..] == s;
  }

  lemma {:induction false} TrimLeftSnocOws(s: string, c: char)
    requires IsOws(c)
    ensures TrimLeft(s + [c]) == if TrimLeft(s) == "" then "" else TrimLeft(s) + [c]
  {
    if s == "" {
      assert (s + [c])[1..] == "";
    } else if IsOws(s[0]) {
      assert (s + [c])[1..] == s[1..] + [c];
      TrimLeftSnocOws(s[1..], c);
    }
  }

  lemma TrimSnocOws(s: string, c: char)
    requires IsOws(c)
    ensures Trim(s + [c]) == Trim(s)
  {
    TrimLeftSnocOws(s, c);
    var l := TrimLeft(s);
    assert (l + [c])[..|l|] == l;
  }

  // ----- Searching, splitting and joining -----

  /** The first position of `c` in `s` at or after `from`, or |s| when there is none. */
  function IndexFrom(s: string, c: char, from: nat): (k: nat)
    requires from <= |s|
    ensures from <= k <= |s|
    ensures forall i :: from <= i < k ==> s[i] != c
    ensures k < |s| ==> s[k] == c
    decreases |s| - from
  {
    if from == |s| || s[from] == c then from else IndexFrom(s, c, from + 1)
  }

  function IndexOf(s: string, c: char): (k: nat)
    ensures k <= |s|
    ensures forall i :: 0 <= i < k ==> s[i] != c
    ensures k < |s| ==> s[k] == c
  {
    IndexFrom(s, c, 0)
  }

  lemma Cut(s: string, k: nat)
    requires k < |s|
    ensures s == s[..k] + [s[k]] + s[k + 1..]
  {
  }

  lemma ConcatAssociative(a: string, b: string, c: string, d: string)
    ensures a + (b + c + d) == (a + b) + c + d
  {
  }

  lemma ConcatTail(a: string, b: string, c: string, d: string)
    ensures a + b + c + d == a + b + (c + d)
  {
  }

  lemma ConcatTail3(a: string, b: string, c: string)
    ensures a + b + c == a + (b + c)
  {
  }

  lemma IndexOfAt(s: string, c: char, k: nat)
    requires k < |s| && s[k] == c && forall i :: 0 <= i < k ==> s[i] != c
    ensures IndexOf(s, c) == k
  {
  }

  lemma IndexOfSplit(a: string, c: char, s: string)
    requires c !in a
    ensures IndexOf(a + [c] + s, c) == |a|
    ensures (a + [c] + s)[..|a|] == a && (a + [c] + s)[|a| + 1..] == s
  {
    var whole := a + [c] + s;
    assert forall i :: 0 <= i < |a| ==> whole[i] == a[i] && a[i] in a;
    IndexOfAt(whole, c, |a|);
  }

  function Split(s: string, separator: char): (parts: seq<string>)
    ensures |parts| >= 1
    ensures forall i :: 0 <= i < |parts| ==> separator !in parts[i]
    decreases |s|
  {
    var k := IndexOf(s, separator);
    if k == |s| then [s] else [s[..k]] + Split(s[k + 1..], separator)
  }

  function Join(parts: seq<string>, separator: string): string {
    if parts == [] then ""
    else if |parts| == 1 then parts[0]
    else parts[0] + separator + Join(parts[1..], separator)
  }

  lemma SplitNone(s: string, separator: char)
    requires separator !in s
    ensures Split(s, separator) == [s]
  {
  }

  lemma SplitFirst(a: string, separator: char, s: string)
    requires separator !in a
    ensures Split(a + [separator] + s, separator) == [a] + Split(s, separator)
  {
    IndexOfSplit(a, separator, s);
  }

  /** Joining the parts of a split restores the text. */
  lemma {:induction false} JoinOfSplit(s: string, separator: char)
    ensures Join(Split(s, separator), [separator]) == s
    decreases |s|
  {
    var k := IndexOf(s, separator);
    if k == |s| {
      SplitNone(s, separator);
    } else {
      Cut(s, k);
      SplitFirst(s[..k], separator, s[k + 1..]);
      JoinOfSplit(s[k + 1..], separator);
      var parts := Split(s[k + 1..], separator);
      assert ([s[..k]] + parts)[1..] == parts;
    }
  }

  /** Splitting undoes joining whenever no part holds the separator. */
  lemma {:induction false} SplitJoin(parts: seq<string>, separator: char)
    requires parts != []
    requires forall i :: 0 <= i < |parts| ==> separator !in parts[i]
    ensures Split(Join(parts, [separator]), separator) == parts
  {
    hide Split;
    if |parts| == 1 {
      SplitNone(parts[0], separator);
    } else {
      SplitJoin(parts[1..], separator);
      SplitFirst(parts[0], separator, Join(parts[1..], [separator]));
    }
  }

  /** The members of a comma-separated list, each without surrounding whitespace. */
  function ListItems(value: string): (items: seq<string>)
    ensures |items| >= 1
    decreases |value|
  {
    var k := IndexOf(value, ',');
    if k == |value| then [Trim(value)] else [Trim(value[..k])] + ListItems(value[k + 1..])
  }

  lemma ListItemsStep(a: string, s: string)
    requires ',' !in a
    ensures ListItems(a + [','] + s) == [Trim(a)] + ListItems(s)
  {
    IndexOfSplit(a, ',', s);
  }

  lemma ListItemsLast(a: string)
    requires ',' !in a
    ensures ListItems(a) == [Trim(a)]
  {
  }

  lemma {:induction false} ListItemsConsOws(c: char, s: string)
    requires IsOws(c)
    ensures ListItems([c] + s) == ListItems(s)
  {
    var k := IndexOf(s, ',');
    var a := s[..k];
    TrimConsOws(c, a);
    if k == |s| {
      assert a == s;
      ListItemsLast(a);
      ListItemsLast([c] + a);
    } else {
      var t := s[k + 1..];
      Cut(s, k);
      ConcatAssociative([c], a, [','], t);
      ListItemsStep(a, t);
      ListItemsStep([c] + a, t);
    }
  }

  lemma {:induction false} ListItemsSnocOws(s: string, c: char)
    requires IsOws(c)
    ensures ListItems(s + [c]) == ListItems(s)
    decreases |s|
  {
    var k := IndexOf(s, ',');
    var a := s[..k];
    if k == |s| {
      assert a == s;
      TrimSnocOws(s, c);
      ListItemsLast(s);
      ListItemsLast(s + [c]);
    } else {
      var t := s[k + 1..];
      ListItemsSnocOws(t, c);
      Cut(s, k);
      assert s + [c] == a + [','] + (t + [c]);
      ListItemsStep(a, t);
      ListItemsStep(a, t + [c]);
    }
  }

  /** Whitespace around a whole list value does not change its members. */
  lemma ListItemsOfTrim(value: string)
    ensures ListItems(Trim(value)) == ListItems(value)
  {
    ListItemsOfTrimLeft(value);
    ListItemsOfTrimRight(TrimLeft(value));
  }

  lemma {:induction false} ListItemsOfTrimLeft(value: string)
    ensures ListItems(TrimLeft(value)) == ListItems(value)
  {
    if value != "" && IsOws(value[0]) {
      assert value == [value[0]] + value[1..];
      ListItemsConsOws(value[0], value[1..]);
      ListItemsOfTrimLeft(value[1..]);
    }
  }

  lemma {:induction false} ListItemsOfTrimRight(value: string)
    ensures ListItems(TrimRight(value)) == ListItems(value)
  {
    if value != "" && IsOws(value[|value| - 1]) {
      var init := value[..|value| - 1];
      assert value == init + [value[|value| - 1]];
      ListItemsSnocOws(init, value[|value| - 1]);
      ListItemsOfTrimRight(init);
    }
  }

  // ----- Positional numerals -----

  predicate IsHexDigit(c: char) { IsDigit(c) || 'a' <= c <= 'f' || 'A' <= c <= 'F' }

  function HexDigitValue(c: char): (v: nat)
    ensures v < 16
    ensures IsDigit(c) ==> v < 10
  {
    if IsDigit(c) then c as int - '0' as int
    else if 'a' <= c <= 'f' then c as int - 'a' as int + 10
    else if 'A' <= c <= 'F' then c as int - 'A' as int + 10
    else 0
  }

  function HexDigitChar(d: nat): (c: char)
    requires d < 16
    ensures IsHexDigit(c) && HexDigitValue(c) == d
    ensures d < 10 ==> IsDigit(c)
  {
    if d < 10 then ('0' as int + d) as char else ('a' as int + d - 10) as char
  }

  /** The number a digit string denotes, without any width limit. */
  function NumeralValue(digits: string, radix: nat): nat {
    if digits == "" then 0
    else NumeralValue(digits[..|digits| - 1], radix) * radix + HexDigitValue(digits[|digits| - 1])
  }

  /** The shortest digit string for `n`. */
  function Numeral(n: nat, radix: nat): (digits: string)
    requires radix == 10 || radix == 16
    ensures digits != ""
    ensures forall i :: 0 <= i < |digits| ==> IsHexDigit(digits[i])
    ensures radix == 10 ==> forall i :: 0 <= i < |digits| ==> IsDigit(digits[i])
  {
    if n < radix then [HexDigitChar(n)]
    else if radix == 10 then Numeral(n / 10, radix) + [HexDigitChar(n % 10)]
    else Numeral(n / 16, radix) + [HexDigitChar(n % 16)]
  }

  lemma {:induction false} NumeralRoundTrip(n: nat, radix: nat)
    requires radix == 10 || radix == 16
    ensures NumeralValue(Numeral(n, radix), radix) == n
  {
    var digits := Numeral(n, radix);
    if n < radix {
      assert digits[..0] == "";
    } else if radix == 10 {
      NumeralRoundTrip(n / 10, radix);
      assert digits[..|digits| - 1] == Numeral(n / 10, radix);
    } else {
      NumeralRoundTrip(n / 16, radix);
      assert digits[..|digits| - 1] == Numeral(n / 16, radix);
    }
  }

  /** A longer digit string never denotes a smaller number. */
  lemma {:induction false} NumeralValueMonotone(digits: string, k: nat, radix: nat)
    requires k <= |digits| && radix >= 1
    ensures NumeralValue(digits[..k], radix) <= NumeralValue(digits, radix)
    decreases |digits|
  {
    if k == |digits| {
      assert digits[..k] == digits;
    } else {
      var init := digits[..|digits| - 1];
      NumeralValueMonotone(init, k, radix);
      assert init[..k] == digits[..k];
      assert NumeralValue(init, radix) * radix >= NumeralValue(init, radix);
    }
  }

  /** The decimal text of a number, as strconv.Itoa prints it. */
  function Itoa(n: nat): (digits: string)
    ensures digits != "" && forall i :: 0 <= i < |digits| ==> IsDigit(digits[i])
  {
    Numeral(n, 10)
  }
}
