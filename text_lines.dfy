/** TextLines: Rust's `str::lines()`, which `Figure::draw` iterates over.
    A line ends at `\n` or at `\r\n` (the terminator is not part of the
    line); the last line may lack a terminator, and a terminator at the
    very end does not start an empty line. */
module TextLines {

  /** Index of the first `\n` in `s`, or `|s|` when there is none. */
  function LineEnd(s: string): (k: nat)
    ensures k <= |s|
    ensures k < |s| ==> s[k] == '\n'
    ensures forall j :: 0 <= j < k ==> s[j] != '\n'
  {
    if s == [] || s[0] == '\n' then 0 else 1 + LineEnd(s[1..])
  }

  /** Drops one `\r` before the `\n` that ended the line. */
  function StripCR(l: string): (r: string)
    ensures r == l || (l == r + ['\r'])
  {
    if |l| > 0 && l[|l| - 1] == '\r' then l[..|l| - 1] else l
  }

  function Lines(s: string): seq<string>
    decreases |s|
  {
    if s == [] then []
    else
      var k := LineEnd(s);
      if k == |s| then [s] else [StripCR(s[..k])] + Lines(s[k + 1..])
  }

  /** The text rebuilt from its lines, every line followed by `\n`. */
  function Unlines(ls: seq<string>): string {
    if ls == [] then [] else ls[0] + "\n" + Unlines(ls[1..])
  }

  function CountOf(c: char, s: string): nat {
    if s == [] then 0 else (if s[0] == c then 1 else 0) + CountOf(c, s[1..])
  }

  predicate EndsLine(s: string) {
    s != [] && s[|s| - 1] == '\n'
  }

  /** No line contains a line feed. */
  lemma {:induction false} LinesHaveNoNewline(s: string)
    ensures forall i :: 0 <= i < |Lines(s)| ==> '\n' !in Lines(s)[i]
    decreases |s|
  {
    if s != [] {
      var k := LineEnd(s);
      if k < |s| {
        LinesHaveNoNewline(s[k + 1..]);
        assert '\n' !in s[..k];
      }
    }
  }

  lemma {:induction false} CountOfAppend(c: char, a: string, b: string)
    ensures CountOf(c, a + b) == CountOf(c, a) + CountOf(c, b)
  {
    if a == [] {
      assert a + b == b;
    } else {
      assert (a + b)[0] == a[0];
      assert (a + b)[1..] == a[1..] + b;
      CountOfAppend(c, a[1..], b);
    }
  }

  lemma CountOfAbsent(c: char, s: string)
    requires c !in s
    ensures CountOf(c, s) == 0
  {
    if s != [] {
      CountOfAbsent(c, s[1..]);
    }
  }

  /** There is one line per line feed, plus one for an unterminated last line. */
  lemma {:induction false} LinesCount(s: string)
    ensures |Lines(s)| == CountOf('\n', s) + (if s != [] && !EndsLine(s) then 1 else 0)
    decreases |s|
  {
    if s != [] {
      var k := LineEnd(s);
      assert '\n' !in s[..k];
      CountOfAbsent('\n', s[..k]);
      if k == |s| {
        assert s[..k] == s;
      } else {
        var rest := s[k + 1..];
        assert s == s[..k] + ['\n'] + rest;
        CountOfAppend('\n', s[..k] + ['\n'], rest);
        CountOfAppend('\n', s[..k], ['\n']);
        LinesCount(rest);
        assert rest != [] ==> rest[|rest| - 1] == s[|s| - 1];
      }
    }
  }

  /** For text without carriage returns, the lines and their terminators
      rebuild the text (with a `\n` added when the last line had none). */
  lemma {:induction false} UnlinesLines(s: string)
    requires '\r' !in s
    ensures Unlines(Lines(s)) == if s == [] || EndsLine(s) then s else s + "\n"
    decreases |s|
  {
    if s != [] {
      var k := LineEnd(s);
      if k == |s| {
        assert !EndsLine(s);
        assert Lines(s) == [s];
        assert Unlines([s]) == s + "\n" + Unlines([]);
      } else {
        var rest := s[k + 1..];
        var head := s[..k] + "\n";
        assert s == head + rest;
        LinesSplit(s, k);
        UnlinesLines(rest);
        if rest == [] {
          assert EndsLine(s);
        } else {
          assert EndsLine(s) == EndsLine(rest) by { assert rest[|rest| - 1] == s[|s| - 1]; }
          if !EndsLine(rest) {
            assert head + (rest + "\n") == (head + rest) + "\n";
          }
        }
      }
    }
  }

  /** One step of `Lines` on text whose first line ends at `k`. */
  lemma LinesSplit(s: string, k: nat)
    requires '\r' !in s && k == LineEnd(s) < |s|
    ensures '\r' !in s[k + 1..]
    ensures Unlines(Lines(s)) == s[..k] + "\n" + Unlines(Lines(s[k + 1..]))
  {
    assert s[..k] == [] || s[..k][|s[..k]| - 1] != '\r';
    assert StripCR(s[..k]) == s[..k];
    assert Lines(s) == [s[..k]] + Lines(s[k + 1..]);
    assert ([s[..k]] + Lines(s[k + 1..]))[1..] == Lines(s[k + 1..]);
  }

  /** A line that does not end in `\r`, so joining it with `\n` does not
      form a `\r\n` terminator; a `\r` elsewhere in the line is kept. */
  predicate NoFinalCR(l: string) {
    l == [] || l[|l| - 1] != '\r'
  }

  /** Lines without `\n` and without a final `\r` are recovered from
      their joined text. */
  lemma {:induction false} LinesUnlines(ls: seq<string>)
    requires forall i :: 0 <= i < |ls| ==> '\n' !in ls[i] && NoFinalCR(ls[i])
    ensures Lines(Unlines(ls)) == ls
  {
    if ls != [] {
      var s := Unlines(ls);
      var l := ls[0];
      var rest := Unlines(ls[1..]);
      assert s == l + ("\n" + rest);
      LineEndAt(l, "\n" + rest);
      assert s[..|l|] == l;
      assert s[|l| + 1..] == rest;
      LinesUnlines(ls[1..]);
    }
  }

  lemma LineEndAt(l: string, t: string)
    requires '\n' !in l && t != [] && t[0] == '\n'
    ensures LineEnd(l + t) == |l|
  {
    if l != [] {
      assert (l + t)[1..] == l[1..] + t;
      LineEndAt(l[1..], t);
    }
  }

  /** Text without a line terminator is a single line. */
  lemma OneLine(s: string)
    requires s != [] && '\n' !in s
    ensures Lines(s) == [s]
  {
    assert LineEnd(s) == |s|;
  }
}
