/** Small vocabulary shared by the component models. */
module Common {

  datatype Option<+T> = None | Some(value: T)

  /** How the environment treats one remote call. A `Dropped` call takes effect on the
      server although the caller sees an error (the reply was lost). */
  datatype Fault = Served | Refused | Dropped

  ghost predicate Distinct<T>(s: seq<T>) {
    forall i, j :: 0 <= i < j < |s| ==> s[i] != s[j]
  }

  /** Two listings of the same entries, each listed once, in possibly different orders. */
  ghost predicate SameListing<T(!new)>(a: seq<T>, b: seq<T>) {
    Distinct(a) && Distinct(b) && forall x :: x in a <==> x in b
  }

  /** Python's `list.index(x)`; the length of the list for the value error. */
  function IndexOf<T(==)>(list: seq<T>, x: T): (i: nat)
    ensures i <= |list|
    ensures i < |list| ==> list[i] == x
    ensures forall k :: 0 <= k < i ==> list[k] != x
  {
    if list == [] || list[0] == x then 0 else 1 + IndexOf(list[1..], x)
  }

  /** Python's `list.remove(x)`: the first occurrence goes. */
  function Without<T(==)>(list: seq<T>, x: T): (rest: seq<T>)
    ensures x in list ==> |rest| == |list| - 1
  {
    if list == [] then [] else if list[0] == x then list[1..] else [list[0]] + Without(list[1..], x)
  }

  lemma {:induction false} WithoutIsDifference<T>(list: seq<T>, x: T)
    requires x in list
    ensures multiset(Without(list, x)) == multiset(list) - multiset{x}
  {
    assert list == [list[0]] + list[1..];
    if list[0] != x {
      WithoutIsDifference(list[1..], x);
    }
  }

  lemma {:induction false} WithoutFirst<T>(list: seq<T>, x: T)
    requires x in list
    ensures IndexOf(list, x) < |list|
    ensures Without(list, x) == list[..IndexOf(list, x)] + list[IndexOf(list, x) + 1..]
  {
    if list[0] != x {
      var tail, i := list[1..], IndexOf(list[1..], x);
      WithoutFirst(tail, x);
      assert [list[0]] + tail[..i] == list[..i + 1] && tail[i + 1..] == list[i + 2..];
      Associative([list[0]], tail[..i], tail[i + 1..]);
    }
  }

  lemma {:induction false} WithoutOne<T>(list: seq<T>, x: T)
    requires Distinct(list)
    ensures Distinct(Without(list, x))
    ensures forall y :: y in Without(list, x) <==> y in list && y != x
  {
    if list != [] {
      assert list == [list[0]] + list[1..];
      WithoutOne(list[1..], x);
      assert forall i :: 0 < i < |list| ==> list[i] == list[1..][i - 1];
      assert list[0] !in list[1..];
    }
  }

  lemma Associative<T>(x: seq<T>, y: seq<T>, z: seq<T>)
    ensures x + (y + z) == (x + y) + z
  {
  }

  /** Python's `text.split(sep)`: the pieces between separators, at least one. */
  function Split(text: string, sep: char): (pieces: seq<string>)
    ensures |pieces| >= 1
  {
    if text == "" then [""]
    else if text[0] == sep then [""] + Split(text[1..], sep)
    else
      var rest := Split(text[1..], sep);
      [[text[0]] + rest[0]] + rest[1..]
  }

  lemma {:induction false} SplitWithoutSeparator(text: string, sep: char)
    requires sep !in text
    ensures Split(text, sep) == [text]
  {
    if text != "" {
      SplitWithoutSeparator(text[1..], sep);
      assert text == [text[0]] + text[1..];
    }
  }

  function LowerChar(c: char): char {
    if 'A' <= c <= 'Z' then (c as int + 32) as char else c
  }

  function Lower(text: string): string {
    seq(|text|, i requires 0 <= i < |text| => LowerChar(text[i]))
  }

  function UpperChar(c: char): char {
    if 'a' <= c <= 'z' then (c as int - 32) as char else c
  }

  function Upper(text: string): string {
    seq(|text|, i requires 0 <= i < |text| => UpperChar(text[i]))
  }

  ghost predicate Capital(big: char, small: char) {
    'A' <= big <= 'Z' && small as int == big as int + 32
  }

  /** The same characters, but that a capital letter may stand for its small one. */
  ghost predicate SameUpToCase(a: string, b: string) {
    |a| == |b| && forall i | 0 <= i < |a| :: a[i] == b[i] || Capital(a[i], b[i]) || Capital(b[i], a[i])
  }

  ghost predicate NoCapitals(text: string) {
    forall c <- text :: !('A' <= c <= 'Z')
  }

  lemma LowerCharExactly(c: char, d: char)
    ensures LowerChar(c) == LowerChar(d) <==> c == d || Capital(c, d) || Capital(d, c)
    ensures UpperChar(c) == UpperChar(d) <==> c == d || Capital(c, d) || Capital(d, c)
  {
  }

  /** Texts in small (in capital) letters are equal exactly when the texts are, up to case. */
  lemma CaseExactly(a: string, b: string)
    ensures Lower(a) == Lower(b) <==> SameUpToCase(a, b)
    ensures Upper(a) == Upper(b) <==> SameUpToCase(a, b)
  {
    forall i | 0 <= i < |a| && |a| == |b|
      ensures Lower(a)[i] == Lower(b)[i] <==> a[i] == b[i] || Capital(a[i], b[i]) || Capital(b[i], a[i])
      ensures Upper(a)[i] == Upper(b)[i] <==> a[i] == b[i] || Capital(a[i], b[i]) || Capital(b[i], a[i])
    {
      LowerCharExactly(a[i], b[i]);
    }
    assert |Lower(a)| == |Upper(a)| == |a| && |Lower(b)| == |Upper(b)| == |b|;
  }

  /** A text without capitals is the other in small letters exactly when it is the same up to
      case. */
  lemma LowerIs(a: string, small: string)
    ensures small == Lower(a) <==> SameUpToCase(a, small) && NoCapitals(small)
  {
    if NoCapitals(small) {
      forall i | 0 <= i < |small| ensures Lower(small)[i] == small[i] { assert small[i] in small; }
      assert Lower(small) == small;
      CaseExactly(a, small);
    }
    if small == Lower(a) {
      forall i | 0 <= i < |a| ensures a[i] == small[i] || Capital(a[i], small[i]) {}
    }
  }

  function Digit(d: nat): char
    requires d < 10
  {
    (d + '0' as int) as char
  }

  /** `str(n)` */
  function Decimal(n: nat): (text: string)
    ensures |text| >= 1
    ensures n >= 10 ==> |text| >= 2
  {
    if n < 10 then [Digit(n)] else Decimal(n / 10) + [Digit(n % 10)]
  }

  /** The number that digits spell. */
  ghost function Number(text: string): int {
    if text == "" then 0 else 10 * Number(text[..|text| - 1]) + (text[|text| - 1] as int - '0' as int)
  }

  ghost predicate Digits(text: string) {
    forall c <- text :: '0' <= c <= '9'
  }

  /** The digits of a number spell it, without leading zeros. */
  lemma {:induction false} DecimalReads(n: nat)
    ensures Digits(Decimal(n)) && Number(Decimal(n)) == n
    ensures Decimal(n)[0] == '0' ==> n == 0
  {
    var text := Decimal(n);
    if n >= 10 {
      DecimalReads(n / 10);
      assert text[..|text| - 1] == Decimal(n / 10);
    } else {
      assert text[..|text| - 1] == "";
    }
  }

  lemma {:induction false} DecimalInjective(a: nat, b: nat)
    requires Decimal(a) == Decimal(b)
    ensures a == b
  {
    var text := Decimal(a);
    if a < 10 {
      assert b < 10;
    } else {
      assert b >= 10;
      assert Decimal(a / 10) == text[..|text| - 1] == Decimal(b / 10);
      assert Digit(a % 10) == text[|text| - 1] == Digit(b % 10);
      DecimalInjective(a / 10, b / 10);
    }
  }
}
