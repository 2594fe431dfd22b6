/** String helpers the store's messages and file-name handling rely on:
    decimal rendering of numbers, `String.prototype.includes`, `indexOf`,
    `slice` with a negative end, and `Array.prototype.join`. */
module Text {

  function DigitChar(d: nat): char
    requires d < 10
  {
    "0123456789"[d]
  }

  /** The value of a digit character. */
  function DigitValue(c: char): nat
    requires '0' <= c <= '9'
  {
    c as int - '0' as int
  }

  /** Reads a string of decimal digits back as a number, most significant first. */
  function DigitsValue(s: string): nat
    requires forall i :: 0 <= i < |s| ==> '0' <= s[i] <= '9'
  {
    if s == [] then 0
    else DigitsValue(s[..|s| - 1]) * 10 + DigitValue(s[|s| - 1])
  }

  /** Decimal digits of a natural number, most significant first: a
      non-empty digit string that reads back as `n`, with no leading zero. */
  function NatText(n: nat): (r: string)
    ensures |r| > 0
    ensures forall i :: 0 <= i < |r| ==> '0' <= r[i] <= '9'
    ensures DigitsValue(r) == n
    ensures |r| > 1 ==> r[0] != '0'
  {
    if n < 10 then [DigitChar(n)]
    else
      var front := NatText(n / 10);
      var r := front + [DigitChar(n % 10)];
      assert r[..|r| - 1] == front;
      r
  }

  /** Different numbers have different decimal texts. */
  lemma NatTextInjective(m: nat, n: nat)
    requires NatText(m) == NatText(n)
    ensures m == n
  {
  }

  /** How a template literal renders an integer: a minus sign exactly when it
      is negative, then the digits of its magnitude. */
  function IntText(i: int): (r: string)
    ensures |r| > 0 && (r[0] == '-' <==> i < 0)
    ensures i < 0 ==> (forall j :: 1 <= j < |r| ==> '0' <= r[j] <= '9') && |r| > 1 && DigitsValue(r[1..]) == -i
    ensures i >= 0 ==> (forall j :: 0 <= j < |r| ==> '0' <= r[j] <= '9') && DigitsValue(r) == i
    ensures i >= 0 && |r| > 1 ==> r[0] != '0'
    ensures i < 0 ==> r[1] != '0'
  {
    if i < 0 then
      var r := "-" + NatText(-i);
      assert r[1..] == NatText(-i);
      r
    else NatText(i)
  }

  /** `s.includes(sub)`: `sub` occurs in `s` as a contiguous piece. */
  predicate Contains(s: string, sub: string)
    decreases |s|
  {
    sub == [] || (|sub| <= |s| && (s[..|sub|] == sub || Contains(s[1..], sub)))
  }

  /** `sub` occurs in `s` starting at position `i`. */
  predicate OccursAt(s: string, sub: string, i: int)
  {
    0 <= i <= |s| - |sub| && s[i..i + |sub|] == sub
  }

  /** `Contains` holds exactly when `sub` occurs at some position of `s`. */
  lemma {:induction false} ContainsAt(s: string, sub: string)
    ensures Contains(s, sub) <==> exists i :: OccursAt(s, sub, i)
    decreases |s|
  {
    if sub == [] {
      assert OccursAt(s, sub, 0);
    } else if |sub| <= |s| {
      ContainsAt(s[1..], sub);
      if s[..|sub|] == sub {
        assert OccursAt(s, sub, 0);
      } else {
        if exists i :: OccursAt(s, sub, i) {
          var i :| OccursAt(s, sub, i);
          assert i != 0;
          assert s[1..][i - 1..i - 1 + |sub|] == s[i..i + |sub|];
          assert OccursAt(s[1..], sub, i - 1);
        }
        if Contains(s[1..], sub) {
          var i :| OccursAt(s[1..], sub, i);
          assert s[i + 1..i + 1 + |sub|] == s[1..][i..i + |sub|];
          assert OccursAt(s, sub, i + 1);
        }
      }
    }
  }

  /** `s.indexOf(c)`: the first position of `c`, or -1 when `c` does not occur. */
  function IndexOf(s: string, c: char): (r: int)
    ensures -1 <= r < |s|
    ensures r == -1 <==> c !in s
    ensures r >= 0 ==> s[r] == c
    ensures forall j :: 0 <= j < r ==> s[j] != c
  {
    if s == [] then -1
    else if s[0] == c then 0
    else
      var j := IndexOf(s[1..], c);
      if j == -1 then -1
      else j + 1
  }

  /** `s.slice(0, end)`: a negative `end` counts from the back. */
  function SliceTo(s: string, end: int): (r: string)
    ensures r <= s
    ensures 0 <= end ==> |r| == if end < |s| then end else |s|
    ensures end < 0 ==> |r| == if |s| + end < 0 then 0 else |s| + end
  {
    if end < 0 then (if |s| + end < 0 then [] else s[..|s| + end])
    else if end < |s| then s[..end]
    else s
  }

  /** `${array}`, that is `array.join(sep)` with `sep` the comma. */
  function Join(items: seq<string>, sep: string): (r: string)
    ensures items == [] ==> r == []
    ensures |items| == 1 ==> r == items[0]
    ensures |items| > 1 ==> items[0] + sep <= r
    ensures |items| > 0 ==> items[0] <= r
  {
    if items == [] then ""
    else if |items| == 1 then items[0]
    else items[0] + sep + Join(items[1..], sep)
  }

  /** The join read from the other end: all items but the last, the
      separator, then the last item. With the front-first definition this
      places every item in the result. */
  lemma {:induction false} JoinFromBack(items: seq<string>, sep: string)
    requires |items| > 1
    ensures Join(items, sep) == Join(items[..|items| - 1], sep) + sep + items[|items| - 1]
    decreases |items|
  {
    if |items| > 2 {
      JoinFromBack(items[1..], sep);
      assert items[1..][..|items| - 2] == items[..|items| - 1][1..];
    }
  }
}
