/** The JavaScript string operations the components use on skill text:
    `String.prototype.trim`, `split(',')` and `Array.prototype.join`. */
module Text {

  /** ECMAScript WhiteSpace and LineTerminator code points: what `trim` strips. */
  predicate IsSpace(c: char) {
    || c == '\t' || c == '\n' || c == '\U{000B}' || c == '\U{000C}' || c == '\r'
    || c == ' ' || c == '\U{00A0}' || c == '\U{1680}'
    || ('\U{2000}' <= c <= '\U{200A}')
    || c == '\U{2028}' || c == '\U{2029}' || c == '\U{202F}' || c == '\U{205F}'
    || c == '\U{3000}' || c == '\U{FEFF}'
  }

  /** Neither end of `s` is white space. */
  predicate IsTrimmed(s: string) {
    s == [] || (!IsSpace(s[0]) && !IsSpace(s[|s| - 1]))
  }

  /** The index of the first character at or after `i` that is not white
      space, or `|s|` when there is none. */
  function SkipLeading(s: string, i: nat): (k: nat)
    requires i <= |s|
    ensures i <= k <= |s|
    ensures k == |s| || !IsSpace(s[k])
    decreases |s| - i
  {
    if i < |s| && IsSpace(s[i]) then SkipLeading(s, i + 1) else i
  }

  /** The end of `s[lo..j]` once its trailing white space is dropped. */
  function SkipTrailing(s: string, lo: nat, j: nat): (k: nat)
    requires lo <= j <= |s|
    ensures lo <= k <= j
    ensures k == lo || !IsSpace(s[k - 1])
    decreases j - lo
  {
    if lo < j && IsSpace(s[j - 1]) then SkipTrailing(s, lo, j - 1) else j
  }

  /** `s.trim()`: the stretch of `s` left once white space is stripped from
      both ends; it has no white space at either end. */
  function Trim(s: string): (r: string)
    ensures IsTrimmed(r)
  {
    var a := SkipLeading(s, 0);
    s[a..SkipTrailing(s, a, |s|)]
  }

  /** Trimming only removes: the result is a stretch of `s`, so it holds no
      character that `s` does not. */
  lemma TrimKeepsChar(s: string, c: char)
    ensures c in Trim(s) ==> c in s
  {
    var a := SkipLeading(s, 0);
    var b := SkipTrailing(s, a, |s|);
    if c in s[a..b] {
      var k :| 0 <= k < b - a && s[a..b][k] == c;
      assert s[a + k] == c;
    }
  }

  /** Trimming changes nothing exactly when there is nothing to strip. */
  lemma TrimFixedPoint(s: string)
    ensures Trim(s) == s <==> IsTrimmed(s)
  {
    if IsTrimmed(s) && s != [] {
      assert SkipLeading(s, 0) == 0;
      assert SkipTrailing(s, 0, |s|) == |s|;
      assert s[0..|s|] == s;
    }
  }

  /** One leading blank before trimmed text is stripped and nothing else is:
      this is what undoes the `', '` separator. */
  lemma TrimLeadingBlank(x: string)
    requires IsTrimmed(x)
    ensures Trim(" " + x) == x
  {
    var s := " " + x;
    assert IsSpace(s[0]);
    assert SkipLeading(s, 0) == SkipLeading(s, 1);
    if x == [] {
      assert SkipLeading(s, 1) == 1;
      assert SkipTrailing(s, 1, 1) == 1;
    } else {
      assert s[1] == x[0];
      assert SkipLeading(s, 1) == 1;
      assert s[|s| - 1] == x[|x| - 1];
      assert SkipTrailing(s, 1, |s|) == |s|;
    }
    assert s[1..|s|] == x;
  }

  /** `s.split(',')`: the pieces between commas, always at least one. */
  function Split(s: string): (r: seq<string>)
    ensures |r| >= 1
    ensures forall i :: 0 <= i < |r| ==> ',' !in r[i]
  {
    if s == [] then [""]
    else if s[0] == ',' then [""] + Split(s[1..])
    else
      var rest := Split(s[1..]);
      [[s[0]] + rest[0]] + rest[1..]
  }

  /** `xs.join(sep)`. */
  function Join(xs: seq<string>, sep: string): string {
    if |xs| == 0 then ""
    else if |xs| == 1 then xs[0]
    else xs[0] + sep + Join(xs[1..], sep)
  }

  /** Joining the pieces of a split with `','` gives back the original string. */
  lemma {:induction false} JoinSplit(s: string)
    ensures Join(Split(s), ",") == s
  {
    if s != [] {
      JoinSplit(s[1..]);
      var rest := Split(s[1..]);
      if s[0] == ',' {
        assert Split(s) == [""] + rest;
        assert s == [','] + s[1..];
      } else {
        var r := Split(s);
        assert r[0] == [s[0]] + rest[0] && r[1..] == rest[1..];
        if |rest| == 1 {
          assert s == [s[0]] + s[1..];
        } else {
          assert Join(rest, ",") == rest[0] + "," + Join(rest[1..], ",");
          assert s == [s[0]] + s[1..];
        }
      }
    }
  }

  /** Splitting text that begins with a comma-free stretch `a` puts `a` in front of the first piece. */
  lemma {:induction false} SplitCommaFreePrefix(a: string, t: string)
    requires ',' !in a
    ensures Split(a + t) == [a + Split(t)[0]] + Split(t)[1..]
  {
    if a != [] {
      assert (a + t)[0] == a[0] && (a + t)[1..] == a[1..] + t;
      SplitCommaFreePrefix(a[1..], t);
      var st, rest := Split(t), Split(a[1..] + t);
      assert rest == [a[1..] + st[0]] + st[1..];
      assert Split(a + t) == [[a[0]] + rest[0]] + rest[1..];
      assert rest[0] == a[1..] + st[0] && rest[1..] == st[1..];
      assert [a[0]] + (a[1..] + st[0]) == a + st[0];
    } else {
      assert a + t == t && a + Split(t)[0] == Split(t)[0];
      assert Split(t) == [Split(t)[0]] + Split(t)[1..];
    }
  }

  /** Splitting a `','`-join of comma-free pieces gives the pieces back. */
  lemma {:induction false} SplitJoin(xs: seq<string>)
    requires |xs| >= 1
    requires forall i :: 0 <= i < |xs| ==> ',' !in xs[i]
    ensures Split(Join(xs, ",")) == xs
  {
    if |xs| == 1 {
      SplitCommaFreePrefix(xs[0], "");
      assert xs[0] + "" == xs[0];
    } else {
      var tail := Join(xs[1..], ",");
      SplitJoin(xs[1..]);
      assert Join(xs, ",") == xs[0] + ("," + tail);
      SplitCommaFreePrefix(xs[0], "," + tail);
      assert ("," + tail)[0] == ',' && ("," + tail)[1..] == tail;
      assert Split("," + tail) == [""] + xs[1..];
      assert xs[0] + "" == xs[0];
    }
  }

  /** The `', '`-join of `xs` is the `','`-join of `xs` with a blank put before every piece but the first. */
  lemma {:induction false} JoinCommaBlank(xs: seq<string>)
    requires |xs| >= 1
    ensures Join(xs, ", ") == Join([xs[0]] + Blanked(xs[1..]), ",")
  {
    if |xs| > 1 {
      var rest := xs[1..];
      JoinCommaBlank(rest);
      assert Blanked(rest) == [" " + rest[0]] + Blanked(rest[1..]);
      JoinFirstPrefix(" ", rest[0], Blanked(rest[1..]), ",");
      assert ([xs[0]] + Blanked(rest))[1..] == Blanked(rest);
    }
  }

  /** Every piece with one blank put in front of it. */
  function Blanked(xs: seq<string>): (r: seq<string>)
    ensures |r| == |xs|
    ensures forall i :: 0 <= i < |xs| ==> r[i] == " " + xs[i]
  {
    seq(|xs|, i requires 0 <= i < |xs| => " " + xs[i])
  }

  /** Text put in front of the first piece ends up in front of the whole join. */
  lemma JoinFirstPrefix(c: string, h: string, t: seq<string>, sep: string)
    ensures Join([c + h] + t, sep) == c + Join([h] + t, sep)
  {
    if |t| > 0 {
      assert ([c + h] + t)[1..] == t && ([h] + t)[1..] == t;
    }
  }

  /** The character of a decimal digit. */
  function Digit(d: nat): (c: char)
    requires d < 10
    ensures '0' <= c <= '9' && c as int - '0' as int == d
  {
    ('0' as int + d) as char
  }

  /** Decimal digits of a number, as `String(n)` and template interpolation write it. */
  function NatToString(n: nat): (s: string)
    ensures |s| >= 1
    ensures forall k :: 0 <= k < |s| ==> '0' <= s[k] <= '9'
    ensures n == 0 || s[0] != '0'
    decreases n
  {
    if n < 10 then [Digit(n)] else NatToString(n / 10) + [Digit(n % 10)]
  }

  /** The value of a string of decimal digits. */
  function DigitsValue(s: string): nat
    requires forall k :: 0 <= k < |s| ==> '0' <= s[k] <= '9'
  {
    if s == [] then 0 else DigitsValue(s[..|s| - 1]) * 10 + (s[|s| - 1] as int - '0' as int)
  }

  /** The printed number reads back as the number. */
  lemma {:induction false} NatToStringValue(n: nat)
    ensures DigitsValue(NatToString(n)) == n
    decreases n
  {
    var s := NatToString(n);
    if n >= 10 {
      NatToStringValue(n / 10);
      assert s[..|s| - 1] == NatToString(n / 10);
    }
  }

  /** `String(n)` for an integer: a minus sign before the digits of a negative one. */
  function IntToString(n: int): string {
    if n < 0 then "-" + NatToString(-n) else NatToString(n)
  }
}
