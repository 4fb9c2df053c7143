/** The Python string builtins the generator is written with: `str.split` on one character,
    `str.join`, `str(n)` for a non-negative `int`, and `str.capitalize` on ASCII text. */
module PyStr {

  // ---------------------------------------------------------------------------------------
  // split and join

  /** `s.split(c)`: the pieces between occurrences of `c`; `[""]` for the empty string. */
  function Split(s: string, c: char): (r: seq<string>)
    ensures |r| >= 1
    ensures forall i :: 0 <= i < |r| ==> c !in r[i]
  {
    if |s| == 0 then [""]
    else if s[0] == c then [""] + Split(s[1..], c)
    else
      var rest := Split(s[1..], c);
      [[s[0]] + rest[0]] + rest[1..]
  }

  /** `sep.join(ps)`. */
  function Join(sep: string, ps: seq<string>): string
  {
    if |ps| == 0 then "" else if |ps| == 1 then ps[0] else ps[0] + sep + Join(sep, ps[1..])
  }

  /** `"".join(ps)`. */
  function Concat(ps: seq<string>): string
  {
    if |ps| == 0 then "" else ps[0] + Concat(ps[1..])
  }

  lemma {:induction false} SplitNoSep(s: string, c: char)
    requires c !in s
    ensures Split(s, c) == [s]
  {
    if |s| > 0 {
      SplitNoSep(s[1..], c);
      assert [s[0]] + s[1..] == s;
    }
  }

  /** Splitting at one occurrence of the separator splits the two sides independently. */
  lemma {:induction false} SplitAppend(a: string, c: char, b: string)
    ensures Split(a + [c] + b, c) == Split(a, c) + Split(b, c)
  {
    if |a| == 0 {
      assert a + [c] + b == [c] + b;
      assert ([c] + b)[1..] == b;
    } else {
      assert (a + [c] + b)[0] == a[0];
      assert (a + [c] + b)[1..] == a[1..] + [c] + b;
      SplitAppend(a[1..], c, b);
    }
  }

  /** A newline in the middle of a text ends a line: the lines of the two sides, one after
      the other. */
  lemma SplitLine(a: string, b: string)
    ensures Split(a + "\n" + b, '\n') == Split(a, '\n') + Split(b, '\n')
  {
    assert "\n" == ['\n'];
    SplitAppend(a, '\n', b);
  }

  /** A text ending in a newline ends with an empty line. */
  lemma LastLine(a: string)
    ensures Split(a + "\n", '\n') == Split(a, '\n') + [""]
  {
    SplitLine(a, "");
    assert a + "\n" + "" == a + "\n";
  }

  /** A text without a newline is one line. */
  lemma OneLine(a: string)
    requires NoNewline(a)
    ensures Split(a, '\n') == [a]
  {
    SplitNoSep(a, '\n');
  }

  /** `sep.join(s.split(sep)) == s`. */
  lemma {:induction false} JoinSplit(s: string, c: char)
    ensures Join([c], Split(s, c)) == s
  {
    if |s| > 0 {
      JoinSplit(s[1..], c);
      var rest := Split(s[1..], c);
      if s[0] == c {
        assert Split(s, c)[1..] == rest;
      } else if |rest| > 1 {
        assert Split(s, c)[1..] == rest[1..];
        assert Join([c], rest) == rest[0] + [c] + Join([c], rest[1..]);
      }
    }
  }

  /** `s.split(sep)` after `sep.join(ps)` gives back `ps` when no piece holds the separator. */
  lemma {:induction false} SplitJoin(ps: seq<string>, c: char)
    requires |ps| >= 1
    requires forall i :: 0 <= i < |ps| ==> c !in ps[i]
    ensures Split(Join([c], ps), c) == ps
  {
    if |ps| == 1 {
      SplitNoSep(ps[0], c);
    } else {
      SplitJoin(ps[1..], c);
      SplitNoSep(ps[0], c);
      SplitAppend(ps[0], c, Join([c], ps[1..]));
    }
  }

  lemma {:induction false} JoinNoSep(sep: string, ps: seq<string>, c: char)
    requires c !in sep
    requires forall i :: 0 <= i < |ps| ==> c !in ps[i]
    ensures c !in Join(sep, ps)
  {
    if |ps| > 1 {
      JoinNoSep(sep, ps[1..], c);
    }
  }

  /** The lines of `first + ("\n" + ind).join(ps) + last`: the first piece after `first`, each
      later piece after `ind`, and `last` at the end of the last line. */
  function Block(first: string, ind: string, ps: seq<string>, last: string): (r: seq<string>)
    ensures |r| == if |ps| == 0 then 1 else |ps|
    decreases |ps|
  {
    if |ps| == 0 then [first + last]
    else if |ps| == 1 then [first + ps[0] + last]
    else [first + ps[0]] + Block(ind, ind, ps[1..], last)
  }

  predicate NoNewline(s: string)
  {
    '\n' !in s
  }

  predicate NoNewlines(ps: seq<string>)
  {
    forall i :: 0 <= i < |ps| ==> '\n' !in ps[i]
  }

  lemma {:induction false} BlockLines(first: string, ind: string, ps: seq<string>, last: string)
    requires NoNewline(first) && NoNewline(ind) && NoNewline(last) && NoNewlines(ps)
    ensures Split(first + Join("\n" + ind, ps) + last, '\n') == Block(first, ind, ps, last)
    decreases |ps|
  {
    if |ps| == 0 {
      assert first + Join("\n" + ind, ps) + last == first + last;
      SplitNoSep(first + last, '\n');
    } else if |ps| == 1 {
      assert first + Join("\n" + ind, ps) + last == first + ps[0] + last;
      SplitNoSep(first + ps[0] + last, '\n');
    } else {
      var tail := Join("\n" + ind, ps[1..]);
      assert first + Join("\n" + ind, ps) + last == (first + ps[0]) + ['\n'] + (ind + tail + last);
      SplitAppend(first + ps[0], '\n', ind + tail + last);
      SplitNoSep(first + ps[0], '\n');
      BlockLines(ind, ind, ps[1..], last);
    }
  }

  /** The lines of `"\n".join(ps)`: `ps` itself, or one empty line when `ps` is empty. */
  function Lines(ps: seq<string>): seq<string>
  {
    if |ps| == 0 then [""] else ps
  }

  lemma JoinLines(ps: seq<string>)
    requires NoNewlines(ps)
    ensures Split(Join("\n", ps), '\n') == Lines(ps)
  {
    if |ps| > 0 {
      SplitJoin(ps, '\n');
    }
  }

  /** The lines of `"\n".join(before + [m] + after)`, where only `m` may span several lines. */
  lemma {:induction false} JoinAround(before: seq<string>, m: string, after: seq<string>)
    requires NoNewlines(before) && NoNewlines(after)
    ensures Split(Join("\n", before + [m] + after), '\n') == before + Split(m, '\n') + after
    decreases |before|
  {
    if |before| == 0 {
      assert before + [m] + after == [m] + after;
      JoinFirst(m, after);
    } else {
      JoinAround(before[1..], m, after);
      JoinAroundCons(before[0], before[1..], m, after);
      assert [before[0]] + before[1..] == before;
    }
  }

  lemma JoinAroundCons(line: string, rest: seq<string>, m: string, after: seq<string>)
    requires NoNewline(line)
    requires Split(Join("\n", rest + [m] + after), '\n') == rest + Split(m, '\n') + after
    ensures Split(Join("\n", [line] + rest + [m] + after), '\n') == [line] + rest + Split(m, '\n') + after
  {
    var tail := rest + [m] + after;
    assert [line] + rest + [m] + after == [line] + tail;
    JoinCons(line, tail);
  }

  /** A piece that may span several lines, first in a newline-joined text. */
  lemma JoinFirst(m: string, after: seq<string>)
    requires NoNewlines(after)
    ensures Split(Join("\n", [m] + after), '\n') == Split(m, '\n') + after
  {
    if |after| > 0 {
      assert ([m] + after)[1..] == after;
      SplitLine(m, Join("\n", after));
      JoinLines(after);
    }
  }

  /** A single line, first in a newline-joined text. */
  lemma JoinCons(line: string, tail: seq<string>)
    requires NoNewline(line) && |tail| > 0
    ensures Split(Join("\n", [line] + tail), '\n') == [line] + Split(Join("\n", tail), '\n')
  {
    assert ([line] + tail)[1..] == tail;
    SplitLine(line, Join("\n", tail));
    OneLine(line);
  }

  /** Every piece after `ind`. */
  function Indent(ind: string, ps: seq<string>): (r: seq<string>)
    ensures |r| == |ps|
  {
    seq(|ps|, i requires 0 <= i < |ps| => ind + ps[i])
  }

  /** With the same text before the first piece as before the others and nothing after the last,
      a block is its pieces indented. */
  lemma {:induction false} BlockIndent(ind: string, ps: seq<string>)
    requires |ps| > 0
    ensures Block(ind, ind, ps, "") == Indent(ind, ps)
    decreases |ps|
  {
    if |ps| > 1 {
      BlockIndent(ind, ps[1..]);
      assert Indent(ind, ps) == [ind + ps[0]] + Indent(ind, ps[1..]);
    } else {
      assert ind + ps[0] + "" == ind + ps[0];
    }
  }

  /** A character missing from `s` is missing from every piece of `s.split(c)`. */
  lemma {:induction false} SplitAvoids(s: string, c: char, d: char)
    requires d !in s
    ensures forall i :: 0 <= i < |Split(s, c)| ==> d !in Split(s, c)[i]
  {
    if |s| > 0 {
      SplitAvoids(s[1..], c, d);
    }
  }

  lemma {:induction false} ConcatAppend(a: seq<string>, b: seq<string>)
    ensures Concat(a + b) == Concat(a) + Concat(b)
  {
    if |a| > 0 {
      assert (a + b)[1..] == a[1..] + b;
      ConcatAppend(a[1..], b);
    } else {
      assert a + b == b;
    }
  }

  /** A character missing from every piece is missing from their concatenation. */
  lemma {:induction false} ConcatAvoids(ps: seq<string>, d: char)
    requires forall i :: 0 <= i < |ps| ==> d !in ps[i]
    ensures d !in Concat(ps)
  {
    if |ps| > 0 {
      ConcatAvoids(ps[1..], d);
    }
  }

  // ---------------------------------------------------------------------------------------
  // str(n)

  function DigitChar(d: nat): char
    requires d < 10
  {
    ('0' as int + d) as char
  }

  predicate IsDigit(ch: char)
  {
    '0' <= ch <= '9'
  }

  /** `str(n)` for `n >= 0`: decimal digits, most significant first, no leading zero. */
  function Decimal(n: nat): (r: string)
    ensures |r| >= 1
    ensures forall i :: 0 <= i < |r| ==> IsDigit(r[i])
    ensures r[0] == '0' ==> n == 0 && r == "0"
  {
    if n < 10 then [DigitChar(n)] else Decimal(n / 10) + [DigitChar(n % 10)]
  }

  /** `int(s)` on a string of decimal digits. */
  function DecimalValue(s: string): nat
    requires forall i :: 0 <= i < |s| ==> IsDigit(s[i])
  {
    if |s| == 0 then 0
    else
      assert IsDigit(s[|s| - 1]);
      DecimalValue(s[..|s| - 1]) * 10 + (s[|s| - 1] as int - '0' as int)
  }

  lemma {:induction false} DecimalRoundTrip(n: nat)
    ensures DecimalValue(Decimal(n)) == n
  {
    if n >= 10 {
      DecimalRoundTrip(n / 10);
      var r := Decimal(n);
      assert r[..|r| - 1] == Decimal(n / 10);
    }
  }

  /** Distinct numbers print differently. */
  lemma DecimalInjective(a: nat, b: nat)
    requires a != b
    ensures Decimal(a) != Decimal(b)
  {
    DecimalRoundTrip(a);
    DecimalRoundTrip(b);
  }

  // ---------------------------------------------------------------------------------------
  // capitalize

  predicate IsUpper(ch: char)
  {
    'A' <= ch <= 'Z'
  }

  predicate IsLower(ch: char)
  {
    'a' <= ch <= 'z'
  }

  function Upper(ch: char): (r: char)
    ensures !IsLower(r)
  {
    if IsLower(ch) then (ch as int - 32) as char else ch
  }

  function Lower(ch: char): (r: char)
    ensures !IsUpper(r)
  {
    if IsUpper(ch) then (ch as int + 32) as char else ch
  }

  function LowerAll(s: string): (r: string)
    ensures |r| == |s|
  {
    seq(|s|, i requires 0 <= i < |s| => Lower(s[i]))
  }

  /** `w.capitalize()` on ASCII text: the first character upper case, the rest lower case. */
  function Capitalize(w: string): (r: string)
    ensures |r| == |w|
    ensures |w| > 0 ==> !IsLower(r[0])
    ensures forall i :: 1 <= i < |r| ==> !IsUpper(r[i])
  {
    if |w| == 0 then "" else [Upper(w[0])] + LowerAll(w[1..])
  }

  /** Capitalizing brings in no character that is not a letter. */
  lemma CapitalizeAvoids(w: string, d: char)
    requires !IsUpper(d) && !IsLower(d) && d !in w
    ensures d !in Capitalize(w)
  {
    if |w| > 0 {
      var r := Capitalize(w);
      forall i | 0 <= i < |r|
        ensures r[i] != d
      {
        if i > 0 {
          assert r[i] == Lower(w[i]);
        }
      }
    }
  }

  /** Capitalizing changes case only: it keeps the length, every non-letter, and the lower-case
      form of the text. */
  lemma CapitalizeKeepsLetters(w: string)
    ensures LowerAll(Capitalize(w)) == LowerAll(w)
    ensures forall i :: 0 <= i < |w| ==> (Capitalize(w)[i] == w[i] || IsLower(w[i]) || IsUpper(w[i]))
    ensures forall i :: 0 <= i < |w| ==> (Capitalize(w)[i] == '_' <==> w[i] == '_')
  {
  }
}
