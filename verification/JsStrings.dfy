/**
 * JavaScript strings as the adapter uses them: sequences of 16-bit code units,
 * with `trim`, `split('\n')`, `join` and decimal formatting.
 */
module JsStrings {

  newtype CodeUnit = x: int | 0 <= x < 0x1_0000

  type Text = seq<CodeUnit>

  const LF: CodeUnit := 10
  const SPACE: CodeUnit := 32
  const SLASH: CodeUnit := 47
  const OPEN_BRACKET: CodeUnit := 91
  const CLOSE_BRACKET: CodeUnit := 93
  const BACKTICK: CodeUnit := 96
  const PIPE: CodeUnit := 124

  /** The ECMAScript WhiteSpace and LineTerminator code units, which `trim` and `\s` share. */
  predicate IsSpace(c: CodeUnit) {
    || 9 <= c <= 13
    || c == 0x20
    || c == 0xA0
    || c == 0x1680
    || 0x2000 <= c <= 0x200A
    || c == 0x2028
    || c == 0x2029
    || c == 0x202F
    || c == 0x205F
    || c == 0x3000
    || c == 0xFEFF
  }

  function TrimStart(s: Text): Text {
    if s != [] && IsSpace(s[0]) then TrimStart(s[1..]) else s
  }

  function TrimEnd(s: Text): Text {
    if s != [] && IsSpace(s[|s| - 1]) then TrimEnd(s[..|s| - 1]) else s
  }

  function Trim(s: Text): Text {
    TrimEnd(TrimStart(s))
  }

  function SplitLines(t: Text): (lines: seq<Text>)
    ensures |lines| >= 1
  {
    if t == [] then [[]]
    else
      var rest := SplitLines(t[1..]);
      if t[0] == LF then [[]] + rest else [[t[0]] + rest[0]] + rest[1..]
  }

  function Join(parts: seq<Text>, sep: Text): Text {
    if parts == [] then []
    else if |parts| == 1 then parts[0]
    else parts[0] + sep + Join(parts[1..], sep)
  }

  function JoinLines(lines: seq<Text>): Text {
    Join(lines, [LF])
  }

  function Concat(parts: seq<Text>): Text {
    if parts == [] then [] else parts[0] + Concat(parts[1..])
  }

  /** The code units of `s` that are not white space, in order. */
  function Visible(s: Text): Text {
    if s == [] then []
    else (if IsSpace(s[0]) then [] else [s[0]]) + Visible(s[1..])
  }

  function Decimal(n: nat): Text {
    if n < 10 then [(48 + n) as CodeUnit] else Decimal(n / 10) + [(48 + n % 10) as CodeUnit]
  }

  // ----- Trimming -----

  lemma {:induction false} TrimStartAppend(a: Text, b: Text)
    ensures TrimStart(a + b) == if TrimStart(a) == [] then TrimStart(b) else TrimStart(a) + b
  {
    if a == [] {
      assert a + b == b;
    } else if IsSpace(a[0]) {
      assert (a + b)[1..] == a[1..] + b;
      TrimStartAppend(a[1..], b);
    }
  }

  lemma {:induction false} TrimEndAppend(a: Text, b: Text)
    ensures TrimEnd(a + b) == if TrimEnd(b) == [] then TrimEnd(a) else a + TrimEnd(b)
  {
    if b == [] {
      assert a + b == a;
    } else if IsSpace(b[|b| - 1]) {
      assert (a + b)[..|a + b| - 1] == a + b[..|b| - 1];
      TrimEndAppend(a, b[..|b| - 1]);
    } else {
      assert (a + b)[|a + b| - 1] == b[|b| - 1];
    }
  }

  ghost predicate AllSpace(s: Text) {
    TrimStart(s) == [] && TrimEnd(s) == []
  }

  lemma AllSpaceAppend(a: Text, b: Text)
    requires AllSpace(a) && AllSpace(b)
    ensures AllSpace(a + b)
  {
    TrimStartAppend(a, b);
    TrimEndAppend(a, b);
  }

  lemma Reassociate(a: Text, b: Text, c: Text)
    ensures a + b + c == a + (b + c)
  {
  }

  lemma AllSpaceOne(c: CodeUnit)
    requires IsSpace(c)
    ensures AllSpace([c])
  {
  }

  lemma {:induction false} TrimStartSplits(s: Text) returns (pre: Text)
    ensures s == pre + TrimStart(s) && AllSpace(pre)
    ensures TrimStart(s) != [] ==> !IsSpace(TrimStart(s)[0])
    decreases |s|
  {
    if s != [] && IsSpace(s[0]) {
      var first, rest := [s[0]], s[1..];
      assert s == first + rest && TrimStart(s) == TrimStart(rest);
      AllSpaceOne(s[0]);
      hide TrimStart, AllSpace, IsSpace;
      var p := TrimStartSplits(rest);
      pre := first + p;
      AllSpaceAppend(first, p);
      Reassociate(first, p, TrimStart(rest));
    } else {
      pre := [];
      assert s == [] + s && TrimStart(s) == s;
    }
  }

  lemma {:induction false} TrimEndSplits(s: Text) returns (post: Text)
    ensures s == TrimEnd(s) + post && AllSpace(post)
    ensures TrimEnd(s) != [] ==> !IsSpace(TrimEnd(s)[|TrimEnd(s)| - 1])
    decreases |s|
  {
    if s != [] && IsSpace(s[|s| - 1]) {
      var front, last := s[..|s| - 1], [s[|s| - 1]];
      assert s == front + last && TrimEnd(s) == TrimEnd(front);
      AllSpaceOne(s[|s| - 1]);
      hide TrimEnd, AllSpace, IsSpace;
      var p := TrimEndSplits(front);
      post := p + last;
      AllSpaceAppend(p, last);
      Reassociate(TrimEnd(front), p, last);
    } else {
      post := [];
      assert s == s + [] && TrimEnd(s) == s;
    }
  }

  /** The order in which the two ends are trimmed does not matter, and trimming is idempotent. */
  lemma TrimFacts(s: Text)
    ensures TrimStart(TrimEnd(s)) == Trim(s)
    ensures Trim(TrimStart(s)) == Trim(s) && Trim(TrimEnd(s)) == Trim(s) && Trim(Trim(s)) == Trim(s)
    ensures TrimStart(s) == [] <==> Trim(s) == []
    ensures TrimEnd(s) == [] <==> Trim(s) == []
  {
    var pre := TrimStartSplits(s);
    var post := TrimEndSplits(s);
    TrimEndAppend(pre, TrimStart(s));
    TrimStartAppend(TrimEnd(s), post);
    TrimIdempotent(s);
    TrimIdempotent(TrimEnd(s));
    if TrimStart(s) == [] {
      assert s == pre;
    }
    if TrimEnd(s) == [] {
      assert s == post;
    }
    var m := Trim(s);
    if m != [] {
      assert TrimEnd(s) == pre + m;
      TrimStartAppend(pre, m);
      var mid := TrimStart(s);
      var post2 := TrimEndSplits(mid);
      assert m[0] == mid[0];
      assert TrimStart(m) == m;
    } else {
      var mid := TrimStart(s);
      var post2 := TrimEndSplits(mid);
      assert mid == post2;
    }
    TrimIdempotent(TrimStart(s));
  }

  lemma TrimIdempotent(s: Text)
    ensures TrimStart(TrimStart(s)) == TrimStart(s)
    ensures TrimEnd(TrimEnd(s)) == TrimEnd(s)
  {
  }

  // ----- Splitting and joining -----

  lemma {:induction false} SplitAppend(a: Text, b: Text)
    ensures SplitLines(a + [LF] + b) == SplitLines(a) + SplitLines(b)
  {
    var t := a + [LF] + b;
    if a == [] {
      assert t[1..] == b;
      assert SplitLines(a) == [[]];
    } else {
      assert t[1..] == a[1..] + [LF] + b;
      SplitAppend(a[1..], b);
    }
  }

  lemma {:induction false} SplitSingle(line: Text)
    requires LF !in line
    ensures SplitLines(line) == [line]
  {
    if line == [] {
    } else {
      SplitSingle(line[1..]);
      assert [line[0]] + line[1..] == line;
    }
  }

  lemma {:induction false} SplitOfJoin(lines: seq<Text>)
    requires lines != []
    requires forall l :: l in lines ==> LF !in l
    ensures SplitLines(JoinLines(lines)) == lines
  {
    SplitSingle(lines[0]);
    if |lines| > 1 {
      SplitOfJoin(lines[1..]);
      SplitAppend(lines[0], JoinLines(lines[1..]));
      assert [lines[0]] + lines[1..] == lines;
    } else {
      assert lines == [lines[0]];
    }
  }

  lemma {:induction false} JoinOfSplit(t: Text)
    ensures JoinLines(SplitLines(t)) == t
    ensures forall l :: l in SplitLines(t) ==> LF !in l
  {
    if t == [] {
    } else {
      JoinOfSplit(t[1..]);
      var rest := SplitLines(t[1..]);
      var lines := SplitLines(t);
      assert [t[0]] + t[1..] == t;
      if t[0] == LF {
        assert lines[1..] == rest;
        assert [] + [LF] + t[1..] == t;
      } else {
        assert lines[1..] == rest[1..];
        assert JoinLines(lines) == [t[0]] + JoinLines(rest);
        forall l | l in lines
          ensures LF !in l
        {
          if l == lines[0] {
            assert rest[0] in rest;
          } else {
            assert l in rest[1..];
          }
        }
      }
    }
  }

  lemma {:induction false} JoinAppend(a: seq<Text>, b: seq<Text>, sep: Text)
    requires a != [] && b != []
    ensures Join(a + b, sep) == Join(a, sep) + sep + Join(b, sep)
  {
    if |a| == 1 {
      assert (a + b)[1..] == b;
    } else {
      assert (a + b)[1..] == a[1..] + b;
      JoinAppend(a[1..], b, sep);
      assert a[0] + sep + (Join(a[1..], sep) + sep + Join(b, sep))
          == a[0] + sep + Join(a[1..], sep) + sep + Join(b, sep);
    }
  }

  lemma {:induction false} ConcatAppend(a: seq<Text>, b: seq<Text>)
    ensures Concat(a + b) == Concat(a) + Concat(b)
  {
    if a == [] {
      assert a + b == b;
    } else {
      assert (a + b)[1..] == a[1..] + b;
      ConcatAppend(a[1..], b);
    }
  }

  // ----- Visible characters -----

  lemma {:induction false} VisibleAppend(a: Text, b: Text)
    ensures Visible(a + b) == Visible(a) + Visible(b)
  {
    if a == [] {
      assert a + b == b;
    } else {
      assert (a + b)[1..] == a[1..] + b;
      VisibleAppend(a[1..], b);
    }
  }

  lemma {:induction false} VisibleOfSpace(s: Text)
    ensures TrimStart(s) == [] <==> Visible(s) == []
  {
    if s == [] {
    } else {
      VisibleOfSpace(s[1..]);
    }
  }

  lemma VisibleTrim(s: Text)
    ensures Visible(Trim(s)) == Visible(s)
  {
    var pre := TrimStartSplits(s);
    var mid := TrimStart(s);
    var post := TrimEndSplits(mid);
    VisibleAppend(pre, mid);
    VisibleAppend(Trim(s), post);
    VisibleOfSpace(pre);
    VisibleOfSpace(post);
  }

  // ----- Decimal numerals -----

  predicate IsDigit(c: CodeUnit) {
    48 <= c <= 57
  }

  lemma {:induction false} DecimalDigits(n: nat)
    ensures |Decimal(n)| >= 1
    ensures forall i :: 0 <= i < |Decimal(n)| ==> IsDigit(Decimal(n)[i])
  {
    if n >= 10 {
      DecimalDigits(n / 10);
    }
  }

  /** The number a row of digits stands for. */
  function Value(digits: Text): nat
    requires forall i :: 0 <= i < |digits| ==> IsDigit(digits[i])
  {
    if digits == [] then 0
    else
      assert IsDigit(digits[|digits| - 1]);
      10 * Value(digits[..|digits| - 1]) + (digits[|digits| - 1] as nat - 48)
  }

  lemma {:induction false} ValueOfDecimal(n: nat)
    ensures (forall i :: 0 <= i < |Decimal(n)| ==> IsDigit(Decimal(n)[i])) && Value(Decimal(n)) == n
  {
    DecimalDigits(n);
    if n >= 10 {
      ValueOfDecimal(n / 10);
      assert Decimal(n)[..|Decimal(n)| - 1] == Decimal(n / 10);
    } else {
      assert Value([]) == 0 && Decimal(n)[..0] == [];
    }
  }

  lemma {:induction false} NumeralIs(digits: Text)
    requires digits != [] && forall i :: 0 <= i < |digits| ==> IsDigit(digits[i])
    requires |digits| == 1 || digits[0] != 48
    ensures Decimal(Value(digits)) == digits
    ensures |digits| > 1 ==> Value(digits) >= 10
  {
    var last := |digits| - 1;
    var front, d := digits[..last], digits[last] as nat - 48;
    assert IsDigit(digits[last]) && digits == front + [digits[last]];
    if last > 0 {
      NumeralIs(front);
      assert IsDigit(digits[0]) && Value([]) == 0;
      assert last == 1 ==> front[..0] == [] && Value(front) == digits[0] as nat - 48;
      assert (10 * Value(front) + d) / 10 == Value(front) && (10 * Value(front) + d) % 10 == d;
    } else {
      assert front == [] && Value(front) == 0;
    }
  }

  /** `Decimal(n)` is the one row of the code units 48 to 57 with the value `n` that has no zero in front of a digit. */
  lemma DecimalExactlyWhen(digits: Text, n: nat)
    ensures digits == Decimal(n) <==>
      && digits != [] && (forall i :: 0 <= i < |digits| ==> 48 <= digits[i] <= 57)
      && Value(digits) == n && (|digits| > 1 ==> digits[0] != 48)
  {
    DecimalDigits(n);
    ValueOfDecimal(n);
    NoLeadingZero(n);
    if digits != [] && (forall i :: 0 <= i < |digits| ==> 48 <= digits[i] <= 57) && (|digits| > 1 ==> digits[0] != 48) {
      NumeralIs(digits);
    }
  }

  lemma {:induction false} NoLeadingZero(n: nat)
    ensures |Decimal(n)| >= 1 && (n >= 1 ==> Decimal(n)[0] != 48) && (|Decimal(n)| > 1 ==> n >= 10)
  {
    DecimalDigits(n);
    if n >= 10 {
      NoLeadingZero(n / 10);
    }
  }

  lemma {:induction false} DecimalLengthMonotone(a: nat, b: nat)
    requires a <= b
    ensures |Decimal(a)| <= |Decimal(b)|
  {
    if b >= 10 && a >= 10 {
      DecimalLengthMonotone(a / 10, b / 10);
    } else if b >= 10 {
      DecimalDigits(b);
    }
  }
}
