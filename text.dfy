/**
 * String helpers the prompt needs: a lexicographic order on strings, the
 * `join('\n')` that assembles the prompt with its inverse, and the decimal
 * rendering of a score.
 */
module Text {

  /** Lexicographic order on character codes (a prefix comes first). */
  predicate StrLe(s: string, t: string) {
    |s| == 0 || (|t| > 0 && (s[0] < t[0] || (s[0] == t[0] && StrLe(s[1..], t[1..]))))
  }

  lemma {:induction false} StrLeTotal(s: string, t: string)
    ensures StrLe(s, t) || StrLe(t, s)
  {
    if |s| > 0 && |t| > 0 && s[0] == t[0] {
      StrLeTotal(s[1..], t[1..]);
    }
  }

  lemma {:induction false} StrLeAntisymmetric(s: string, t: string)
    requires StrLe(s, t) && StrLe(t, s)
    ensures s == t
  {
    if |s| > 0 && |t| > 0 {
      StrLeAntisymmetric(s[1..], t[1..]);
      assert s == [s[0]] + s[1..] && t == [t[0]] + t[1..];
    }
  }

  lemma {:induction false} StrLeTransitive(s: string, t: string, u: string)
    requires StrLe(s, t) && StrLe(t, u)
    ensures StrLe(s, u)
  {
    if |s| > 0 && s[0] == t[0] && t[0] == u[0] {
      StrLeTransitive(s[1..], t[1..], u[1..]);
    }
  }

  /** `lines.join('\n')`. */
  function Join(lines: seq<string>): string {
    if |lines| == 0 then ""
    else if |lines| == 1 then lines[0]
    else lines[0] + "\n" + Join(lines[1..])
  }

  /** `s.split('\n')`: always at least one piece. */
  function Split(s: string): (r: seq<string>)
    ensures |r| >= 1
  {
    if |s| == 0 then [""]
    else
      var rest := Split(s[1..]);
      if s[0] == '\n' then [""] + rest else [[s[0]] + rest[0]] + rest[1..]
  }

  predicate NoNewline(s: string) {
    forall i :: 0 <= i < |s| ==> s[i] != '\n'
  }

  lemma {:induction false} SplitPrefix(a: string, rest: string)
    requires NoNewline(a)
    ensures Split(a + rest) == [a + Split(rest)[0]] + Split(rest)[1..]
  {
    if |a| > 0 {
      SplitPrefix(a[1..], rest);
      var s := a + rest;
      assert s[0] == a[0] && s[0] != '\n';
      assert s[1..] == a[1..] + rest;
      var r := Split(s[1..]);
      assert Split(s) == [[s[0]] + r[0]] + r[1..];
      assert r[0] == a[1..] + Split(rest)[0] && r[1..] == Split(rest)[1..];
      assert [a[0]] + (a[1..] + Split(rest)[0]) == a + Split(rest)[0];
    } else {
      assert a + rest == rest;
      var r := Split(rest);
      assert a + r[0] == r[0];
      assert [r[0]] + r[1..] == r;
    }
  }

  /** Joining lines that hold no newline and splitting again gives the lines back. */
  lemma {:induction false} SplitJoin(lines: seq<string>)
    requires |lines| >= 1
    requires forall i :: 0 <= i < |lines| ==> NoNewline(lines[i])
    ensures Split(Join(lines)) == lines
  {
    if |lines| == 1 {
      SplitPrefix(lines[0], "");
      assert lines[0] + "" == lines[0];
      assert Split("") == [""];
      assert [lines[0] + ""] + [""][1..] == lines;
    } else {
      SplitJoin(lines[1..]);
      var rest := "\n" + Join(lines[1..]);
      assert lines[0] + "\n" + Join(lines[1..]) == lines[0] + rest;
      SplitPrefix(lines[0], rest);
      assert rest[1..] == Join(lines[1..]);
      assert Split(rest) == [""] + lines[1..];
      assert Split(rest)[0] == "" && Split(rest)[1..] == lines[1..];
      assert lines[0] + "" == lines[0];
      assert [lines[0]] + lines[1..] == lines;
    }
  }

  /** Joining two non-empty runs of lines puts one newline between them. */
  lemma {:induction false} JoinAppend(xs: seq<string>, ys: seq<string>)
    requires |xs| >= 1 && |ys| >= 1
    ensures Join(xs + ys) == Join(xs) + "\n" + Join(ys)
  {
    if |xs| > 1 {
      JoinAppend(xs[1..], ys);
      assert (xs + ys)[1..] == xs[1..] + ys;
    } else {
      assert (xs + ys)[1..] == ys;
    }
  }

  lemma SplitConsNewline(t: string)
    ensures Split(['\n'] + t) == [""] + Split(t)
  {
    assert (['\n'] + t)[1..] == t;
  }

  lemma SplitConsOther(x: char, t: string)
    requires x != '\n'
    ensures Split([x] + t) == [[x] + Split(t)[0]] + Split(t)[1..]
  {
    assert ([x] + t)[0] == x && ([x] + t)[1..] == t;
  }

  lemma SplitAppendNewline(t: string, c: string)
    requires Split(t + ("\n" + c)) == Split(t) + Split(c)
    ensures Split(['\n'] + (t + ("\n" + c))) == Split(['\n'] + t) + Split(c)
  {
    SplitConsNewline(t + ("\n" + c));
    SplitConsNewline(t);
    var r := Split(t);
    var rc := Split(c);
    assert [""] + (r + rc) == ([""] + r) + rc;
  }

  lemma SplitAppendOther(x: char, t: string, c: string)
    requires x != '\n'
    requires Split(t + ("\n" + c)) == Split(t) + Split(c)
    ensures Split([x] + (t + ("\n" + c))) == Split([x] + t) + Split(c)
  {
    SplitConsOther(x, t + ("\n" + c));
    SplitConsOther(x, t);
    var r := Split(t);
    var rc := Split(c);
    var h := [x] + r[0];
    assert (r + rc)[0] == r[0];
    assert (r + rc)[1..] == r[1..] + rc;
    assert [h] + (r[1..] + rc) == ([h] + r[1..]) + rc;
  }

  lemma {:induction false} SplitAppendRight(a: string, c: string)
    ensures Split(a + ("\n" + c)) == Split(a) + Split(c)
  {
    if |a| == 0 {
      assert a + ("\n" + c) == ['\n'] + c;
      SplitConsNewline(c);
    } else {
      var t := a[1..];
      var nc := "\n" + c;
      SplitAppendRight(t, c);
      if a[0] == '\n' {
        SplitAppendNewline(t, c);
      } else {
        SplitAppendOther(a[0], t, c);
      }
      assert a == [a[0]] + t;
      assert a + nc == ([a[0]] + t) + nc == [a[0]] + (t + nc);
    }
  }

  /** A newline splits the text into the pieces before it and the pieces after it. */
  lemma SplitAppend(a: string, c: string)
    ensures Split(a + "\n" + c) == Split(a) + Split(c)
  {
    SplitAppendRight(a, c);
    assert a + "\n" + c == a + ("\n" + c);
  }

  /**
   * Appending lines free of newlines to a run of lines adds exactly those
   * lines to the split of the joined text.
   */
  lemma SplitJoinAppend(xs: seq<string>, ys: seq<string>)
    requires |xs| >= 1 && |ys| >= 1
    requires forall i :: 0 <= i < |ys| ==> NoNewline(ys[i])
    ensures Split(Join(xs + ys)) == Split(Join(xs)) + ys
  {
    JoinAppend(xs, ys);
    SplitAppend(Join(xs), Join(ys));
    SplitJoin(ys);
  }

  /** Splitting and joining again gives the text back. */
  lemma {:induction false} JoinSplit(s: string)
    ensures Join(Split(s)) == s
  {
    if |s| > 0 {
      JoinSplit(s[1..]);
      var rest := Split(s[1..]);
      if s[0] != '\n' {
        var r := [[s[0]] + rest[0]] + rest[1..];
        assert r[1..] == rest[1..];
        if |rest| > 1 {
          assert Join(rest) == rest[0] + "\n" + Join(rest[1..]);
        }
      } else {
        assert ([""] + rest)[1..] == rest;
      }
      assert [s[0]] + s[1..] == s;
    }
  }

  predicate IsDigit(c: char) {
    '0' <= c <= '9'
  }

  function Digit(d: nat): (c: char)
    requires d < 10
    ensures IsDigit(c)
  {
    ('0' as int + d) as char
  }

  /** The decimal rendering of a natural number, as a template literal prints it. */
  function Decimal(n: nat): (s: string)
    ensures |s| >= 1 && forall i :: 0 <= i < |s| ==> IsDigit(s[i])
    ensures s[0] == '0' ==> n == 0
  {
    if n < 10 then [Digit(n)] else Decimal(n / 10) + [Digit(n % 10)]
  }

  /** The value of a string of digits. */
  function DecimalValue(s: string): int {
    if |s| == 0 then 0 else DecimalValue(s[..|s| - 1]) * 10 + (s[|s| - 1] as int - '0' as int)
  }

  /** Reading the rendering back gives the number. */
  lemma {:induction false} DecimalRoundTrip(n: nat)
    ensures DecimalValue(Decimal(n)) == n
  {
    if n >= 10 {
      DecimalRoundTrip(n / 10);
      var s := Decimal(n / 10) + [Digit(n % 10)];
      assert s[..|s| - 1] == Decimal(n / 10);
    }
  }
}
