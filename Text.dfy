/**
 * String helpers the pipeline relies on: `Array.prototype.join`, the decimal
 * rendering of an integer inside a template literal, substring search and
 * `String.prototype.replace` with a string pattern (first occurrence only).
 */
module Text {
  import opened Wrappers

  /** `items.join(sep)`: the items with `sep` between each consecutive pair. */
  function Join(items: seq<string>, sep: string): string
  {
    if |items| == 0 then ""
    else if |items| == 1 then items[0]
    else items[0] + sep + Join(items[1..], sep)
  }

  /** Splits `s` at every occurrence of `c`; the inverse of `Join` with a one-character separator. */
  function Split(s: string, c: char): (parts: seq<string>)
    ensures |parts| >= 1
    decreases |s|
  {
    if |s| == 0 then [""]
    else if s[0] == c then [""] + Split(s[1..], c)
    else
      var rest := Split(s[1..], c);
      [[s[0]] + rest[0]] + rest[1..]
  }

  /** Splitting a separator-free prefix glued to `rest` glues it to the first part of `rest`. */
  lemma {:induction false} SplitFreePrefix(x: string, rest: string, c: char)
    requires c !in x
    ensures Split(x + rest, c) == [x + Split(rest, c)[0]] + Split(rest, c)[1..]
    decreases |x|
  {
    if |x| > 0 {
      assert (x + rest)[1..] == x[1..] + rest;
      SplitFreePrefix(x[1..], rest, c);
      assert [x[0]] + (x[1..] + Split(rest, c)[0]) == x + Split(rest, c)[0];
    } else {
      assert x + rest == rest;
      assert x + Split(rest, c)[0] == Split(rest, c)[0];
      assert Split(rest, c) == [Split(rest, c)[0]] + Split(rest, c)[1..];
    }
  }

  /** Joining with a single character and splitting at it gives back the items,
      provided no item contains that character. */
  lemma {:induction false} SplitJoin(items: seq<string>, c: char)
    requires |items| >= 1
    requires forall i :: 0 <= i < |items| ==> c !in items[i]
    ensures Split(Join(items, [c]), c) == items
    decreases |items|
  {
    if |items| == 1 {
      SplitFreePrefix(items[0], "", c);
      assert items[0] + "" == items[0];
    } else {
      var tail := Join(items[1..], [c]);
      assert Join(items, [c]) == items[0] + ([c] + tail);
      SplitFreePrefix(items[0], [c] + tail, c);
      assert ([c] + tail)[1..] == tail;
      SplitJoin(items[1..], c);
      assert Split([c] + tail, c) == [""] + items[1..];
      assert items[0] + "" == items[0];
      assert items == [items[0]] + items[1..];
    }
  }

  // ---------------------------------------------------------------------------
  // Decimal numerals (`${n}` in a template literal, for integral numbers)

  predicate IsDigit(c: char) { '0' <= c <= '9' }

  function DigitChar(d: nat): (c: char)
    requires d < 10
  {
    (('0' as int) + d) as char
  }

  /** The decimal numeral of a natural number, without leading zeros. */
  function NatToString(n: nat): string
    decreases n
  {
    if n < 10 then [DigitChar(n)] else NatToString(n / 10) + [DigitChar(n % 10)]
  }

  /** The numeral of an integer: a minus sign before the numeral of its magnitude. */
  function IntToString(n: int): string
  {
    if n < 0 then "-" + NatToString(-n) else NatToString(n)
  }

  predicate AllDigits(s: string) { forall i :: 0 <= i < |s| ==> IsDigit(s[i]) }

  /** The number a string of decimal digits denotes (reference reading of a numeral). */
  function DigitsValue(s: string): nat
    requires AllDigits(s)
  {
    if |s| == 0 then 0
    else DigitsValue(s[..|s| - 1]) * 10 + ((s[|s| - 1] as int) - ('0' as int))
  }

  /** `NatToString(n)` is a well-formed numeral (digits only, no leading zero) that reads back as `n`. */
  lemma {:induction false} NatToStringDenotes(n: nat)
    ensures |NatToString(n)| >= 1
    ensures AllDigits(NatToString(n))
    ensures |NatToString(n)| > 1 ==> NatToString(n)[0] != '0'
    ensures DigitsValue(NatToString(n)) == n
    decreases n
  {
    var s := NatToString(n);
    if n >= 10 {
      NatToStringDenotes(n / 10);
      assert s[..|s| - 1] == NatToString(n / 10);
      assert s[0] == NatToString(n / 10)[0];
    }
  }

  // ---------------------------------------------------------------------------
  // Substring search and replacement

  /** `pat` occurs in `s` starting at position `j`. */
  predicate OccursAt(s: string, pat: string, j: nat)
  {
    j + |pat| <= |s| && s[j..j + |pat|] == pat
  }

  /** `pat` occurs somewhere inside `s`. */
  predicate IsInfix(pat: string, s: string)
  {
    exists j: nat :: j <= |s| && OccursAt(s, pat, j)
  }

  /** `i` is the position of the first occurrence of `pat` in `s`. */
  predicate FirstOccurrence(s: string, pat: string, i: nat)
  {
    OccursAt(s, pat, i) && forall j: nat :: j < i ==> !OccursAt(s, pat, j)
  }

  lemma InfixAtEnd(a: string, x: string)
    ensures IsInfix(x, a + x)
  {
    assert (a + x)[|a|..|a| + |x|] == x;
    assert OccursAt(a + x, x, |a|);
  }

  lemma InfixExtend(x: string, s: string, b: string)
    requires IsInfix(x, s)
    ensures IsInfix(x, s + b)
  {
    var j: nat :| j <= |s| && OccursAt(s, x, j);
    assert (s + b)[j..j + |x|] == s[j..j + |x|];
    assert OccursAt(s + b, x, j);
  }

  /** The first occurrence of `pat` in `s` at or after `from` (`s.indexOf(pat, from)`). */
  function IndexOfFrom(s: string, pat: string, from: nat): (r: Option<nat>)
    requires from <= |s|
    ensures r.Some? ==> from <= r.value && OccursAt(s, pat, r.value)
    ensures r.Some? ==> forall j: nat :: from <= j < r.value ==> !OccursAt(s, pat, j)
    ensures r.None? ==> forall j: nat :: from <= j ==> !OccursAt(s, pat, j)
    decreases |s| - from
  {
    if from + |pat| > |s| then None
    else if s[from..from + |pat|] == pat then Some(from)
    else IndexOfFrom(s, pat, from + 1)
  }

  /** `s.replace(pat, rep)` with a string pattern: only the first occurrence is replaced. */
  function ReplaceFirst(s: string, pat: string, rep: string): (r: string)
    ensures !IsInfix(pat, s) ==> r == s
    ensures forall i: nat :: FirstOccurrence(s, pat, i) ==> r == s[..i] + rep + s[i + |pat|..]
  {
    match IndexOfFrom(s, pat, 0)
    case None => s
    case Some(i) => s[..i] + rep + s[i + |pat|..]
  }

  // ---------------------------------------------------------------------------
  // Concatenation of parts

  /** The concatenation of a sequence of sequences, in order. */
  function Flatten<T>(parts: seq<seq<T>>): seq<T>
  {
    if |parts| == 0 then [] else parts[0] + Flatten(parts[1..])
  }

  lemma {:induction false} FlattenSnoc<T>(parts: seq<seq<T>>, last: seq<T>)
    ensures Flatten(parts + [last]) == Flatten(parts) + last
    decreases |parts|
  {
    if |parts| == 0 {
      assert parts + [last] == [last];
      assert Flatten([last]) == last + Flatten([last][1..]);
    } else {
      assert (parts + [last])[1..] == parts[1..] + [last];
      FlattenSnoc(parts[1..], last);
    }
  }

  lemma {:induction false} FlattenAppend<T>(a: seq<seq<T>>, b: seq<seq<T>>)
    ensures Flatten(a + b) == Flatten(a) + Flatten(b)
    decreases |a|
  {
    if |a| == 0 {
      assert a + b == b;
    } else {
      assert (a + b)[1..] == a[1..] + b;
      FlattenAppend(a[1..], b);
    }
  }

  /** Part `i` sits whole in the concatenation right after the parts before it,
      and the parts before a later position `j` extend past it. */
  lemma FlattenPlacement<T>(parts: seq<seq<T>>, i: nat, j: nat)
    requires i < j <= |parts|
    ensures |Flatten(parts[..i])| + |parts[i]| <= |Flatten(parts[..j])| <= |Flatten(parts)|
    ensures Flatten(parts)[|Flatten(parts[..i])|..|Flatten(parts[..i])| + |parts[i]|] == parts[i]
  {
    var lo := Flatten(parts[..i]);
    assert parts[..i + 1] == parts[..i] + [parts[i]];
    FlattenAppend(parts[..i], [parts[i]]);
    assert Flatten([parts[i]]) == parts[i] + Flatten([parts[i]][1..]);
    assert parts[..j] == parts[..i + 1] + parts[i + 1..j];
    FlattenAppend(parts[..i + 1], parts[i + 1..j]);
    assert parts == parts[..j] + parts[j..];
    FlattenAppend(parts[..j], parts[j..]);
    assert Flatten(parts) == lo + parts[i] + Flatten(parts[i + 1..j]) + Flatten(parts[j..]);
  }
}
