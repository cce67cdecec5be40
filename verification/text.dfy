/** The Python 2 `str` operations the storage script relies on, over `seq<char>`:
    `strip`, `split(sep)`, `split()`, `splitlines()`, `endswith`, the `in`
    substring test and `int(...)` on a decimal literal. */
module Text {
  import opened Wrappers

  // ---------------------------------------------------------------- whitespace

  /** The characters `str.strip()` and `str.split()` treat as whitespace:
      space, tab, newline, vertical tab, form feed and carriage return. */
  predicate IsSpace(c: char) {
    c == ' ' || '\t' <= c <= '\r'
  }

  /** The number of whitespace characters `s` starts with. */
  function Indent(s: string): (n: nat)
    ensures n <= |s|
    ensures forall j :: 0 <= j < n ==> IsSpace(s[j])
    ensures n < |s| ==> !IsSpace(s[n])
  {
    if |s| > 0 && IsSpace(s[0]) then 1 + Indent(s[1..]) else 0
  }

  /** `s.lstrip()`: the longest suffix of `s` that does not start with whitespace. */
  function TrimStart(s: string): (r: string)
    ensures |r| <= |s| && r == s[|s| - |r|..]
    ensures forall i :: 0 <= i < |s| - |r| ==> IsSpace(s[i])
    ensures r == [] || !IsSpace(r[0])
  {
    s[Indent(s)..]
  }

  /** `s.rstrip()`: the longest prefix of `s` that does not end with whitespace. */
  function TrimEnd(s: string): (r: string)
    ensures |r| <= |s| && r == s[..|r|]
    ensures forall i :: |r| <= i < |s| ==> IsSpace(s[i])
    ensures r == [] || !IsSpace(r[|r| - 1])
  {
    if |s| > 0 && IsSpace(s[|s| - 1]) then TrimEnd(s[..|s| - 1]) else s
  }

  /** `s.strip()`: the middle of `s` left once the whitespace at both ends is
      cut off. It has no whitespace left at either end, and is empty only
      when `s` was all whitespace. */
  function Strip(s: string): (r: string)
    ensures Indent(s) + |r| <= |s| && r == s[Indent(s)..Indent(s) + |r|]
    ensures forall j :: Indent(s) + |r| <= j < |s| ==> IsSpace(s[j])
    ensures r == [] || (!IsSpace(r[0]) && !IsSpace(r[|r| - 1]))
    ensures r == [] ==> forall i :: 0 <= i < |s| ==> IsSpace(s[i])
    decreases |s|
  {
    if |s| > 0 && IsSpace(s[0]) then
      var r := Strip(s[1..]);
      SliceOfTail(s, r, Indent(s[1..]));
      r
    else
      var r := TrimEnd(s);
      SliceOfSuffix(s, s, r, 0);
      r
  }

  /** The slice facts for `s[1..]` carry over to `s` when `s` starts with
      whitespace. */
  lemma SliceOfTail(s: string, r: string, i: nat)
    requires |s| > 0 && IsSpace(s[0])
    requires i + |r| <= |s| - 1 && r == s[1..][i..i + |r|]
    requires forall j :: 0 <= j < i ==> IsSpace(s[1..][j])
    requires forall j :: i + |r| <= j < |s| - 1 ==> IsSpace(s[1..][j])
    ensures r == s[i + 1..i + 1 + |r|]
    ensures forall j :: 0 <= j < i + 1 ==> IsSpace(s[j])
    ensures forall j :: i + 1 + |r| <= j < |s| ==> IsSpace(s[j])
  {
    forall j | 1 <= j < |s|
      ensures s[j] == s[1..][j - 1]
    {
    }
  }

  /** `strip()` is `lstrip()` followed by `rstrip()`. */
  lemma {:induction false} StripTrims(s: string)
    ensures Strip(s) == TrimEnd(TrimStart(s))
    decreases |s|
  {
    if |s| > 0 && IsSpace(s[0]) {
      StripTrims(s[1..]);
      assert s[Indent(s)..] == s[1..][Indent(s[1..])..];
    } else {
      assert s[Indent(s)..] == s;
    }
  }

  /** A prefix `r` of the suffix `t == s[i..]`, where `s` is blank before `i`
      and `t` is blank after `r`, is the slice of `s` at `i` with blanks on
      both sides; if `t` and `r` have non-blank ends, so does the slice. */
  lemma SliceOfSuffix(s: string, t: string, r: string, i: nat)
    requires i <= |s| && t == s[i..] && |r| <= |t| && r == t[..|r|]
    requires forall j :: 0 <= j < i ==> IsSpace(s[j])
    requires forall j :: |r| <= j < |t| ==> IsSpace(t[j])
    requires t == [] || !IsSpace(t[0])
    requires r == [] || !IsSpace(r[|r| - 1])
    ensures i + |r| <= |s| && r == s[i..i + |r|]
    ensures forall j :: i + |r| <= j < |s| ==> IsSpace(s[j])
    ensures r == [] || (!IsSpace(r[0]) && !IsSpace(r[|r| - 1]))
    ensures r == [] ==> forall j :: 0 <= j < |s| ==> IsSpace(s[j])
  {
    forall j | i + |r| <= j < |s|
      ensures IsSpace(s[j])
    {
      assert s[j] == t[j - i];
    }
    assert r != [] ==> r[0] == t[0];
  }

  /** Stripping twice is stripping once. */
  lemma StripIdempotent(s: string)
    ensures Strip(Strip(s)) == Strip(s)
  {
    StripUnpadded(Strip(s));
  }

  /** A string with no whitespace at either end is its own `strip()`. */
  lemma StripUnpadded(s: string)
    requires s == [] || (!IsSpace(s[0]) && !IsSpace(s[|s| - 1]))
    ensures Strip(s) == s
  {
  }

  /** Appending text that starts with a non-blank character does not change
      what `lstrip` removes. */
  lemma TrimStartAppend(x: string, t: string)
    requires |t| > 0 && !IsSpace(t[0])
    ensures TrimStart(x + t) == TrimStart(x) + t
  {
    IndentAppend(x, t);
    assert (x + t)[Indent(x)..] == x[Indent(x)..] + t;
  }

  lemma {:induction false} IndentAppend(x: string, t: string)
    requires |t| > 0 && !IsSpace(t[0])
    ensures Indent(x + t) == Indent(x)
  {
    if |x| == 0 {
      assert x + t == t;
    } else if IsSpace(x[0]) {
      assert (x + t)[1..] == x[1..] + t;
      IndentAppend(x[1..], t);
    } else {
      assert (x + t)[0] == x[0];
    }
  }

  /** Stripping `x + t`, where `t` starts and ends with non-blank characters,
      keeps all of `t` at the end. */
  lemma StripKeepsTail(x: string, t: string)
    requires |t| > 0 && !IsSpace(t[0]) && !IsSpace(t[|t| - 1])
    ensures Strip(x + t) == TrimStart(x) + t
    ensures EndsWith(Strip(x + t), t)
  {
    StripTrims(x + t);
    TrimStartAppend(x, t);
    var y := TrimStart(x) + t;
    assert y[|y| - 1] == t[|t| - 1];
    assert TrimEnd(y) == y;
    assert y[|y| - |t|..] == t;
  }

  // ------------------------------------------------------- prefixes, `in`

  predicate StartsWith(s: string, p: string) {
    |p| <= |s| && s[..|p|] == p
  }

  /** `s.endswith(p)`. */
  predicate EndsWith(s: string, p: string) {
    |p| <= |s| && s[|s| - |p|..] == p
  }

  /** Python's substring test `t in s`. */
  predicate Contains(s: string, t: string)
    decreases |s|
  {
    StartsWith(s, t) || (|s| > 0 && Contains(s[1..], t))
  }

  /** Whatever surrounds it, `t` is found in `a + t + b`. */
  lemma {:induction false} ContainsInfix(a: string, t: string, b: string)
    ensures Contains(a + t + b, t)
  {
    if |a| == 0 {
      assert a + t + b == t + b;
      assert (t + b)[..|t|] == t;
    } else {
      assert (a + t + b)[1..] == a[1..] + t + b;
      ContainsInfix(a[1..], t, b);
    }
  }

  /** A string ending with `t` contains `t`. */
  lemma ContainsSuffix(s: string, t: string)
    requires EndsWith(s, t)
    ensures Contains(s, t)
  {
    var a := s[..|s| - |t|];
    assert s == a + t + "";
    ContainsInfix(a, t, "");
  }

  // ------------------------------------------------------------ split(sep)

  /** `sep.join(parts)`. */
  function Join(parts: seq<string>, sep: char): string
  {
    if |parts| == 0 then ""
    else if |parts| == 1 then parts[0]
    else parts[0] + [sep] + Join(parts[1..], sep)
  }

  /** `s.split(sep)` for a one-character separator: never an empty list, and
      joining the pieces back with `sep` gives `s`. */
  function SplitOn(s: string, sep: char): (parts: seq<string>)
    ensures |parts| >= 1
    ensures forall i :: 0 <= i < |parts| ==> sep !in parts[i]
    ensures sep in s <==> |parts| >= 2
    ensures Join(parts, sep) == s
    decreases |s|
  {
    if |s| == 0 then [""]
    else
      var rest := SplitOn(s[1..], sep);
      if s[0] == sep then
        assert [sep] + s[1..] == s;
        [""] + rest
      else
        var parts := [[s[0]] + rest[0]] + rest[1..];
        assert parts[1..] == rest[1..];
        assert |rest| >= 2 ==> rest == [rest[0]] + rest[1..];
        assert [s[0]] + s[1..] == s;
        parts
  }

  /** The last piece of `s.split(sep)`, i.e. `s.split(sep)[-1]`. */
  function LastPiece(s: string, sep: char): (r: string)
    ensures sep !in r
    ensures EndsWith(s, r)
  {
    var parts := SplitOn(s, sep);
    LastPieceIsSuffix(parts, sep);
    parts[|parts| - 1]
  }

  lemma {:induction false} LastPieceIsSuffix(parts: seq<string>, sep: char)
    requires |parts| >= 1
    ensures EndsWith(Join(parts, sep), parts[|parts| - 1])
  {
    if |parts| > 1 {
      LastPieceIsSuffix(parts[1..], sep);
      var j := Join(parts[1..], sep);
      assert Join(parts, sep) == (parts[0] + [sep]) + j;
    }
  }

  /** A piece free of the separator, followed by the separator, splits off
      as exactly one piece. */
  lemma {:induction false} SplitOnAfterPiece(p: string, sep: char, rest: string)
    requires sep !in p
    ensures SplitOn(p + [sep] + rest, sep) == [p] + SplitOn(rest, sep)
  {
    var s := p + [sep] + rest;
    if |p| == 0 {
      assert s[0] == sep && s[1..] == rest;
    } else {
      assert s[0] == p[0] && s[1..] == p[1..] + [sep] + rest;
      SplitOnAfterPiece(p[1..], sep, rest);
      assert [p[0]] + p[1..] == p;
    }
  }

  /** Splitting a join of separator-free pieces gives the pieces back. */
  lemma {:induction false} SplitJoin(parts: seq<string>, sep: char)
    requires |parts| >= 1
    requires forall i :: 0 <= i < |parts| ==> sep !in parts[i]
    ensures SplitOn(Join(parts, sep), sep) == parts
  {
    if |parts| == 1 {
      assert sep !in Join(parts, sep);
    } else {
      SplitJoin(parts[1..], sep);
      SplitOnAfterPiece(parts[0], sep, Join(parts[1..], sep));
      assert [parts[0]] + parts[1..] == parts;
    }
  }

  /** Appending one more piece to a join. */
  lemma {:induction false} JoinAppend(parts: seq<string>, sep: char, last: string)
    requires |parts| >= 1
    ensures Join(parts + [last], sep) == Join(parts, sep) + [sep] + last
  {
    if |parts| > 1 {
      JoinAppend(parts[1..], sep, last);
      assert (parts + [last])[1..] == parts[1..] + [last];
    } else {
      assert (parts + [last])[1..] == [last];
    }
  }

  /** Whatever comes before the last separator, `split(sep)[-1]` is the
      separator-free text after it. */
  lemma LastPieceAfterSep(x: string, sep: char, b: string)
    requires sep !in b
    ensures LastPiece(x + [sep] + b, sep) == b
  {
    var parts := SplitOn(x, sep) + [b];
    JoinAppend(SplitOn(x, sep), sep, b);
    SplitJoin(parts, sep);
  }

  // ----------------------------------------------------------- splitlines()

  predicate IsLineBreak(c: char) {
    c == '\n' || c == '\r'
  }

  predicate NoBreak(line: string) {
    forall j :: 0 <= j < |line| ==> !IsLineBreak(line[j])
  }

  /** Index of the first line break in `s`, or `|s|` when there is none. */
  function LineEnd(s: string): (i: nat)
    ensures i <= |s|
    ensures NoBreak(s[..i])
    ensures i < |s| ==> IsLineBreak(s[i])
  {
    if |s| == 0 || IsLineBreak(s[0]) then 0
    else
      var i := 1 + LineEnd(s[1..]);
      assert s[..i] == [s[0]] + s[1..][..i - 1];
      i
  }

  /** Python 2's `str.splitlines()`: "\n", "\r" and "\r\n" each end a line,
      and a final line break does not produce an empty last line. */
  function Lines(s: string): (ls: seq<string>)
    ensures forall k :: 0 <= k < |ls| ==> NoBreak(ls[k])
    decreases |s|
  {
    if |s| == 0 then []
    else
      var i := LineEnd(s);
      if i == |s| then
        assert s[..i] == s;
        [s]
      else if s[i] == '\r' && i + 1 < |s| && s[i + 1] == '\n' then [s[..i]] + Lines(s[i + 2..])
      else [s[..i]] + Lines(s[i + 1..])
  }

  /** Each line followed by "\n", as a program printing one line per item writes them. */
  function Unlines(ls: seq<string>): string
  {
    if |ls| == 0 then "" else ls[0] + "\n" + Unlines(ls[1..])
  }

  lemma {:induction false} LineEndOfLine(l: string, rest: string)
    requires NoBreak(l)
    ensures LineEnd(l + "\n" + rest) == |l|
  {
    var s := l + "\n" + rest;
    if |l| > 0 {
      assert s[0] == l[0] && s[1..] == l[1..] + "\n" + rest;
      LineEndOfLine(l[1..], rest);
    }
  }

  /** `splitlines()` recovers the lines of newline-terminated output. */
  lemma {:induction false} LinesUnlines(ls: seq<string>)
    requires forall k :: 0 <= k < |ls| ==> NoBreak(ls[k])
    ensures Lines(Unlines(ls)) == ls
  {
    if |ls| > 0 {
      var s := Unlines(ls);
      var rest := Unlines(ls[1..]);
      assert s == ls[0] + "\n" + rest;
      LineEndOfLine(ls[0], rest);
      assert s[..|ls[0]|] == ls[0];
      assert s[|ls[0]| + 1..] == rest;
      LinesUnlines(ls[1..]);
      assert [ls[0]] + ls[1..] == ls;
    }
  }

  /** `splitlines()` recovers the lines of text joined with "\n" whose last
      line is not empty: the shape command output has once it is stripped. */
  lemma {:induction false} LinesJoin(ls: seq<string>)
    requires forall k :: 0 <= k < |ls| ==> NoBreak(ls[k])
    requires |ls| > 0 ==> ls[|ls| - 1] != ""
    ensures Lines(Join(ls, '\n')) == ls
  {
    if |ls| == 1 {
      assert Join(ls, '\n') == ls[0];
    } else if |ls| > 1 {
      var s := Join(ls, '\n');
      var rest := Join(ls[1..], '\n');
      assert s == ls[0] + "\n" + rest;
      LineEndOfLine(ls[0], rest);
      assert s[..|ls[0]|] == ls[0];
      assert s[|ls[0]| + 1..] == rest;
      LinesJoin(ls[1..]);
      assert [ls[0]] + ls[1..] == ls;
    }
  }

  /** Conversely, joining the lines of text that has no "\r" and does not end
      in "\n" with "\n" gives the text back: `splitlines()` loses nothing
      of such text. */
  lemma {:induction false} JoinLines(s: string)
    requires forall j :: 0 <= j < |s| ==> s[j] != '\r'
    requires s == [] || s[|s| - 1] != '\n'
    ensures Join(Lines(s), '\n') == s
    decreases |s|
  {
    if |s| > 0 {
      var i := LineEnd(s);
      if i == |s| {
        assert s[..i] == s;
      } else {
        var rest := s[i + 1..];
        assert s[|s| - 1] == rest[|rest| - 1];
        forall j | 0 <= j < |rest|
          ensures rest[j] != '\r'
        {
          assert rest[j] == s[i + 1 + j];
        }
        JoinLines(rest);
        JoinLinesStep(s, i);
      }
    }
  }

  lemma JoinLinesStep(s: string, i: nat)
    requires i == LineEnd(s) < |s| - 1 && s[i] == '\n'
    requires Join(Lines(s[i + 1..]), '\n') == s[i + 1..]
    ensures Join(Lines(s), '\n') == s
  {
    var rest := s[i + 1..];
    LinesAtNewline(s, i);
    JoinCons(s[..i], Lines(rest), '\n');
    SplitAround(s, i);
  }

  lemma SplitAround(s: string, i: nat)
    requires i < |s|
    ensures s == s[..i] + [s[i]] + s[i + 1..]
  {
  }

  /** Stripped command output free of "\r" is exactly its lines joined with
      "\n": it never ends in a line break, so `splitlines()` drops nothing. */
  lemma LinesOfStripped(x: string)
    requires forall j :: 0 <= j < |Strip(x)| ==> Strip(x)[j] != '\r'
    ensures Join(Lines(Strip(x)), '\n') == Strip(x)
  {
    JoinLines(Strip(x));
  }

  /** A "\n" ends the first line, and the remaining lines follow it. */
  lemma LinesAtNewline(s: string, i: nat)
    requires i == LineEnd(s) < |s| - 1 && s[i] == '\n'
    ensures Lines(s) == [s[..i]] + Lines(s[i + 1..]) && |Lines(s[i + 1..])| > 0
  {
    LinesNonEmpty(s[i + 1..]);
  }

  lemma LinesNonEmpty(s: string)
    requires |s| > 0
    ensures |Lines(s)| > 0
  {
  }

  lemma JoinCons(p: string, ps: seq<string>, sep: char)
    requires |ps| > 0
    ensures Join([p] + ps, sep) == p + [sep] + Join(ps, sep)
  {
    assert ([p] + ps)[1..] == ps;
  }

  // ---------------------------------------------------------------- split()

  /** A non-empty run of non-whitespace characters. */
  predicate IsWord(w: string) {
    |w| > 0 && forall j :: 0 <= j < |w| ==> !IsSpace(w[j])
  }

  /** Index of the first whitespace character in `s`, or `|s|`. */
  function WordEnd(s: string): (i: nat)
    ensures i <= |s|
    ensures forall j :: 0 <= j < i ==> !IsSpace(s[j])
    ensures i < |s| ==> IsSpace(s[i])
  {
    if |s| == 0 || IsSpace(s[0]) then 0 else 1 + WordEnd(s[1..])
  }

  /** `s.split()` with no argument: the maximal runs of non-whitespace, in order. */
  function Words(s: string): (ws: seq<string>)
    ensures forall k :: 0 <= k < |ws| ==> IsWord(ws[k])
    decreases |s|
  {
    if |s| == 0 then []
    else if IsSpace(s[0]) then Words(s[1..])
    else
      var i := WordEnd(s);
      [s[..i]] + Words(s[i..])
  }

  /** Each word followed by one blank. */
  function Unwords(ws: seq<string>): string
  {
    if |ws| == 0 then "" else ws[0] + " " + Unwords(ws[1..])
  }

  lemma {:induction false} WordEndOfWord(w: string, c: char, rest: string)
    requires forall j :: 0 <= j < |w| ==> !IsSpace(w[j])
    requires IsSpace(c)
    ensures WordEnd(w + [c] + rest) == |w|
  {
    var s := w + [c] + rest;
    if |w| > 0 {
      assert s[0] == w[0] && s[1..] == w[1..] + [c] + rest;
      WordEndOfWord(w[1..], c, rest);
    }
  }

  /** A word followed by whitespace is the first item of `split()`. */
  lemma WordsAfterWord(w: string, c: char, rest: string)
    requires IsWord(w) && IsSpace(c)
    ensures Words(w + [c] + rest) == [w] + Words(rest)
  {
    var s := w + [c] + rest;
    WordEndOfWord(w, c, rest);
    assert s[..|w|] == w;
    assert s[|w|..] == [c] + rest;
    assert ([c] + rest)[1..] == rest;
  }

  /** `split()` recovers the words of blank-separated output. */
  lemma {:induction false} WordsUnwords(ws: seq<string>)
    requires forall k :: 0 <= k < |ws| ==> IsWord(ws[k])
    ensures Words(Unwords(ws)) == ws
  {
    if |ws| > 0 {
      WordsAfterWord(ws[0], ' ', Unwords(ws[1..]));
      assert Unwords(ws) == ws[0] + [' '] + Unwords(ws[1..]);
      WordsUnwords(ws[1..]);
      assert [ws[0]] + ws[1..] == ws;
    }
  }

  /** Leading whitespace does not change `split()`. */
  lemma {:induction false} WordsTrimStart(s: string)
    ensures Words(TrimStart(s)) == Words(s)
  {
    if |s| > 0 && IsSpace(s[0]) {
      WordsTrimStart(s[1..]);
      assert s[Indent(s)..] == s[1..][Indent(s[1..])..];
    }
  }

  lemma {:induction false} WordEndAppendSpaces(x: string, sp: string)
    requires forall j :: 0 <= j < |sp| ==> IsSpace(sp[j])
    ensures WordEnd(x + sp) == WordEnd(x)
  {
    if |x| > 0 {
      assert (x + sp)[0] == x[0] && (x + sp)[1..] == x[1..] + sp;
      WordEndAppendSpaces(x[1..], sp);
    } else {
      assert x + sp == sp;
    }
  }

  /** Trailing whitespace does not change `split()`. */
  lemma {:induction false} WordsAppendSpaces(x: string, sp: string)
    requires forall j :: 0 <= j < |sp| ==> IsSpace(sp[j])
    ensures Words(x + sp) == Words(x)
    decreases |x| + |sp|
  {
    if |x| == 0 {
      assert x + sp == sp;
      if |sp| > 0 {
        WordsAppendSpaces(x, sp[1..]);
        assert x + sp[1..] == sp[1..];
      }
    } else if IsSpace(x[0]) {
      assert (x + sp)[1..] == x[1..] + sp;
      WordsAppendSpaces(x[1..], sp);
    } else {
      var i := WordEnd(x);
      WordEndAppendSpaces(x, sp);
      assert (x + sp)[..i] == x[..i];
      assert (x + sp)[i..] == x[i..] + sp;
      WordsAppendSpaces(x[i..], sp);
    }
  }

  /** `s.strip().split() == s.split()`. */
  lemma WordsStrip(s: string)
    ensures Words(Strip(s)) == Words(s)
  {
    StripTrims(s);
    var t := TrimStart(s);
    var e := TrimEnd(t);
    assert t == e + t[|e|..];
    WordsAppendSpaces(e, t[|e|..]);
    WordsTrimStart(s);
  }

  // ------------------------------------------------------------ int(...)

  predicate IsDigit(c: char) {
    '0' <= c <= '9'
  }

  predicate AllDigits(s: string) {
    forall j :: 0 <= j < |s| ==> IsDigit(s[j])
  }

  /** The value of a string of decimal digits. */
  function DigitsValue(s: string): nat
    requires AllDigits(s)
  {
    if |s| == 0 then 0
    else DigitsValue(s[..|s| - 1]) * 10 + (s[|s| - 1] as int - '0' as int)
  }

  /** The decimal spelling of `n`, as `str(n)` writes it. */
  function ShowNat(n: nat): (s: string)
    ensures |s| > 0 && AllDigits(s)
  {
    if n < 10 then [('0' as int + n) as char]
    else ShowNat(n / 10) + [('0' as int + n % 10) as char]
  }

  lemma {:induction false} ShowNatValue(n: nat)
    ensures DigitsValue(ShowNat(n)) == n
  {
    if n >= 10 {
      ShowNatValue(n / 10);
      var s := ShowNat(n);
      assert s[..|s| - 1] == ShowNat(n / 10);
    }
  }

  /** Python's `int(s)` on a string without surrounding whitespace: an
      optional sign and at least one decimal digit; anything else is the
      `ValueError` the source lets propagate. */
  function ParseInt(s: string): (r: Option<int>)
    ensures r.Some? <==> ((|s| > 0 && AllDigits(s))
                          || (|s| > 1 && (s[0] == '-' || s[0] == '+') && AllDigits(s[1..])))
  {
    if |s| > 0 && AllDigits(s) then Some(DigitsValue(s))
    else if |s| > 1 && s[0] == '-' && AllDigits(s[1..]) then Some(0 - DigitsValue(s[1..]) as int)
    else if |s| > 1 && s[0] == '+' && AllDigits(s[1..]) then Some(DigitsValue(s[1..]))
    else None
  }

  /** `int(str(n)) == n`. */
  lemma ParseShowNat(n: nat)
    ensures ParseInt(ShowNat(n)) == Some(n)
  {
    ShowNatValue(n);
  }
}
