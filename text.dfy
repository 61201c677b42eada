/**
 * String helpers shared by the duty report and the webhook: decimal
 * rendering as JavaScript template literals do it, `Array.prototype.join`
 * and its inverse, and searching for a fixed pattern.
 */
module TextUtil {

  datatype Option<T> = None | Some(value: T)

  /** A LINE text message object, `{ type: 'text', text }`. */
  datatype TextMessage = TextMessage(text: string)

  predicate IsDigit(c: char) {
    '0' <= c <= '9'
  }

  predicate AllDigits(s: string) {
    forall i :: 0 <= i < |s| ==> IsDigit(s[i])
  }

  function DigitChar(n: int): (c: char)
    requires 0 <= n < 10
    ensures IsDigit(c)
  {
    (('0' as int) + n) as char
  }

  function DigitValue(c: char): (n: int)
    requires IsDigit(c)
    ensures 0 <= n < 10 && DigitChar(n) == c
  {
    (c as int) - ('0' as int)
  }

  /** The decimal text of a natural number, as `${n}` renders it: no sign, no leading zero. */
  function NatToString(n: nat): (s: string)
    ensures 1 <= |s| && AllDigits(s)
    ensures n < 10 <==> |s| == 1
    ensures |s| > 1 ==> s[0] != '0'
    decreases n
  {
    if n < 10 then [DigitChar(n)] else NatToString(n / 10) + [DigitChar(n % 10)]
  }

  /** The decimal text of an integer, as `${i}` renders it: a leading '-' when negative. */
  function IntToString(i: int): (s: string)
    ensures 1 <= |s|
    ensures i >= 0 ==> AllDigits(s)
    ensures i < 0 ==> s[0] == '-' && AllDigits(s[1..])
  {
    if i < 0 then "-" + NatToString(-i) else NatToString(i)
  }

  /** The value of a string of decimal digits. */
  function DigitsValue(s: string): nat
    requires AllDigits(s)
  {
    if |s| == 0 then 0 else 10 * DigitsValue(s[..|s| - 1]) + DigitValue(s[|s| - 1])
  }

  function ParseNat(s: string): Option<nat> {
    if 1 <= |s| && AllDigits(s) then Some(DigitsValue(s)) else None
  }

  function ParseInt(s: string): Option<int> {
    if 1 <= |s| && s[0] == '-' then
      match ParseNat(s[1..])
      case Some(n) => Some(0 - n)
      case None => None
    else
      match ParseNat(s)
      case Some(n) => Some(n as int)
      case None => None
  }

  lemma {:induction false} ParseNatToString(n: nat)
    ensures ParseNat(NatToString(n)) == Some(n)
    decreases n
  {
    var s := NatToString(n);
    if n < 10 {
      assert DigitValue(s[0]) == n;
    } else {
      ParseNatToString(n / 10);
      assert s[..|s| - 1] == NatToString(n / 10);
      assert DigitValue(s[|s| - 1]) == n % 10;
      assert DigitsValue(s) == 10 * (n / 10) + n % 10;
    }
  }

  lemma ParseIntToString(i: int)
    ensures ParseInt(IntToString(i)) == Some(i)
  {
    var s := IntToString(i);
    if i < 0 {
      ParseNatToString(-i);
      assert s[0] == '-' && s[1..] == NatToString(-i);
      assert ParseNat(s[1..]) == Some(-i);
    } else {
      ParseNatToString(i);
      assert IsDigit(s[0]);
      assert s[0] != '-';
    }
  }

  /** `lines.join(sep)` for a one-character separator. */
  function Join(lines: seq<string>, sep: char): string {
    if |lines| == 0 then ""
    else if |lines| == 1 then lines[0]
    else lines[0] + [sep] + Join(lines[1..], sep)
  }

  /** `s.split(sep)`: the pieces between occurrences of `sep`; never empty. */
  function Split(s: string, sep: char): (pieces: seq<string>)
    ensures 1 <= |pieces|
  {
    if |s| == 0 then [""]
    else
      var rest := Split(s[1..], sep);
      if s[0] == sep then [""] + rest else [[s[0]] + rest[0]] + rest[1..]
  }

  lemma {:induction false} SplitNoSeparator(a: string, sep: char)
    requires sep !in a
    ensures Split(a, sep) == [a]
  {
    if |a| > 0 {
      SplitNoSeparator(a[1..], sep);
      assert [a[0]] + a[1..] == a;
    }
  }

  lemma {:induction false} SplitAfterPiece(a: string, sep: char, t: string)
    requires sep !in a
    ensures Split(a + [sep] + t, sep) == [a] + Split(t, sep)
  {
    if |a| == 0 {
      assert a + [sep] + t == [sep] + t;
      assert ([sep] + t)[1..] == t;
    } else {
      SplitAfterPiece(a[1..], sep, t);
      assert (a + [sep] + t)[1..] == a[1..] + [sep] + t;
      assert [a[0]] + a[1..] == a;
    }
  }

  /** Splitting the joined text gives back the lines, when no line holds the separator. */
  lemma {:induction false} SplitJoin(lines: seq<string>, sep: char)
    requires 1 <= |lines|
    requires forall i :: 0 <= i < |lines| ==> sep !in lines[i]
    ensures Split(Join(lines, sep), sep) == lines
  {
    if |lines| == 1 {
      SplitNoSeparator(lines[0], sep);
    } else {
      SplitJoin(lines[1..], sep);
      SplitAfterPiece(lines[0], sep, Join(lines[1..], sep));
    }
  }

  /** Three separator-free pieces joined by the separator split back into themselves. */
  lemma SplitThree(a: string, b: string, c: string, sep: char)
    requires sep !in a && sep !in b && sep !in c
    ensures Split(a + [sep] + b + [sep] + c, sep) == [a, b, c]
  {
    var bc := b + [sep] + c;
    SplitNoSeparator(c, sep);
    SplitAfterPiece(b, sep, c);
    assert Split(bc, sep) == [b, c];
    SplitAfterPiece(a, sep, bc);
    assert a + [sep] + b + [sep] + c == a + [sep] + bc;
  }

  lemma {:induction false} JoinAppend(a: seq<string>, b: seq<string>, sep: char)
    requires 1 <= |a| && 1 <= |b|
    ensures Join(a + b, sep) == Join(a, sep) + [sep] + Join(b, sep)
  {
    if |a| > 1 {
      JoinAppend(a[1..], b, sep);
      assert (a + b)[1..] == a[1..] + b;
    }
  }

  /** The joined text around an inner line `k`: the lines before it, the line, the lines after it. */
  lemma JoinAround(lines: seq<string>, k: int, sep: char)
    requires 1 <= k < |lines| - 1
    ensures Join(lines, sep) == Join(lines[..k], sep) + [sep] + lines[k] + [sep] + Join(lines[k + 1..], sep)
  {
    assert lines == lines[..k] + lines[k..];
    JoinAppend(lines[..k], lines[k..], sep);
    assert lines[k..][1..] == lines[k + 1..];
  }

  /** A character that is neither the separator nor in any line is not in the joined text. */
  lemma {:induction false} JoinAvoids(lines: seq<string>, sep: char, c: char)
    requires c != sep
    requires forall i :: 0 <= i < |lines| ==> c !in lines[i]
    ensures c !in Join(lines, sep)
  {
    if |lines| > 1 {
      JoinAvoids(lines[1..], sep, c);
    }
  }

  /** No character of `s` has code point `code`. This says `c !in s` (see
      `LacksMeans`) in a form that the verifier checks against a long string
      literal much more cheaply, character by character on integers. */
  predicate Lacks(s: string, code: int) {
    forall i :: 0 <= i < |s| ==> s[i] as int != code
  }

  lemma LacksMeans(s: string, c: char)
    requires Lacks(s, c as int)
    ensures c !in s
  {
  }

  /** `p` occurs in `s` starting at index `i`. */
  predicate OccursAt(s: string, p: string, i: int) {
    0 <= i && i + |p| <= |s| && s[i..i + |p|] == p
  }

  /** The leftmost occurrence of `p` in `s` at or after `from`. */
  function IndexOf(s: string, p: string, from: nat): (r: Option<nat>)
    requires from <= |s|
    ensures r.Some? ==> from <= r.value && OccursAt(s, p, r.value)
    ensures r.Some? ==> forall j :: from <= j < r.value ==> !OccursAt(s, p, j)
    ensures r.None? ==> forall j :: from <= j <= |s| ==> !OccursAt(s, p, j)
    decreases |s| - from
  {
    if OccursAt(s, p, from) then Some(from)
    else if from == |s| then None
    else IndexOf(s, p, from + 1)
  }

  /** `p` occurs in `s` at `i` and nowhere before. */
  predicate IsFirstOccurrence(s: string, p: string, i: int) {
    OccursAt(s, p, i) && forall j :: 0 <= j < i ==> !OccursAt(s, p, j)
  }

  /** The search from the start finds exactly the first occurrence. */
  lemma IndexOfFirst(s: string, p: string, i: int)
    requires IsFirstOccurrence(s, p, i)
    ensures IndexOf(s, p, 0) == Some(i)
  {
  }
}
