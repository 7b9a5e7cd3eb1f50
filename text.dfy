/**
 * Reading text as '\n'-terminated lines. `Lines` splits the way Rust's
 * `str::lines` does for text without carriage returns: a final '\n' does
 * not open an extra empty line, while "\n\n" yields an empty line between.
 */
module Text {

  /** `s` holds no line break, so it occupies exactly one line. */
  predicate SingleLine(s: string) {
    '\n' !in s
  }

  lemma SingleLineAppend(a: string, b: string)
    requires SingleLine(a) && SingleLine(b)
    ensures SingleLine(a + b)
  {
  }

  /**
   * The lines of `s`, scanning it character by character: `cur` is the
   * line read so far, a '\n' ends it, and an unfinished line at the end
   * counts only when it is not empty.
   */
  function LinesFrom(cur: string, s: string): seq<string>
    decreases |s|
  {
    if s == [] then (if cur == [] then [] else [cur])
    else if s[0] == '\n' then [cur] + LinesFrom([], s[1..])
    else LinesFrom(cur + [s[0]], s[1..])
  }

  function Lines(s: string): seq<string> {
    LinesFrom([], s)
  }

  /** Each line followed by a '\n', the way the journal writes its blocks. */
  function Unlines(ls: seq<string>): (s: string)
    ensures ls != [] ==> |s| > 0 && s[|s| - 1] == '\n'
  {
    if ls == [] then [] else Unlines(ls[..|ls| - 1]) + (ls[|ls| - 1] + "\n")
  }

  /** Joining one more line appends it, with its '\n', after the lines before it. */
  lemma UnlinesSnoc(ls: seq<string>, k: nat)
    requires k < |ls|
    ensures Unlines(ls[..k + 1]) == Unlines(ls[..k]) + ls[k] + "\n"
  {
    assert ls[..k + 1][..k] == ls[..k];
  }

  /** Joined lines start with the first line and end with the last, each with its '\n'. */
  lemma {:induction false} UnlinesEnds(ls: seq<string>)
    requires ls != []
    ensures ls[0] + "\n" <= Unlines(ls)
    ensures var u, last := Unlines(ls), ls[|ls| - 1] + "\n";
      |last| <= |u| && u[|u| - |last|..] == last
  {
    var init, last := ls[..|ls| - 1], ls[|ls| - 1] + "\n";
    var u := Unlines(ls);
    assert u == Unlines(init) + last;
    assert u[|u| - |last|..] == last;
    if init != [] {
      UnlinesEnds(init);
      assert init[0] == ls[0];
    }
  }

  /** A single line and its '\n' close the line being read; the rest is read afresh. */
  lemma {:induction false} LinesFromLine(cur: string, a: string, rest: string)
    requires SingleLine(a)
    ensures LinesFrom(cur, a + "\n" + rest) == [cur + a] + Lines(rest)
    decreases |a|
  {
    var s := a + "\n" + rest;
    if a == [] {
      assert s[0] == '\n' && s[1..] == rest;
      assert cur + a == cur;
    } else {
      assert s[0] == a[0] != '\n';
      assert s[1..] == a[1..] + "\n" + rest;
      assert a == [a[0]] + a[1..];
      LinesFromLine(cur + [a[0]], a[1..], rest);
      assert cur + [a[0]] + a[1..] == cur + a;
    }
  }

  lemma LinesCons(a: string, rest: string)
    requires SingleLine(a)
    ensures Lines(a + "\n" + rest) == [a] + Lines(rest)
  {
    LinesFromLine([], a, rest);
    assert [] + a == a;
  }

  /** Once the scanned text has ended its last line, what follows is read afresh. */
  lemma {:induction false} LinesFromAppend(cur: string, a: string, b: string)
    requires a != [] && a[|a| - 1] == '\n'
    ensures LinesFrom(cur, a + b) == LinesFrom(cur, a) + Lines(b)
    decreases |a|
  {
    var ab := a + b;
    assert ab[0] == a[0];
    assert ab[1..] == a[1..] + b;
    if a[0] == '\n' && |a| == 1 {
      assert a[1..] == [] && ab[1..] == b;
    } else if a[0] == '\n' {
      LinesFromAppend([], a[1..], b);
    } else {
      LinesFromAppend(cur + [a[0]], a[1..], b);
    }
  }

  /** Text ending in a line break splits independently of what follows it. */
  lemma LinesAppend(a: string, b: string)
    requires a == [] || a[|a| - 1] == '\n'
    ensures Lines(a + b) == Lines(a) + Lines(b)
  {
    if a == [] {
      assert a + b == b;
    } else {
      LinesFromAppend([], a, b);
    }
  }

  /** A single line with its '\n' reads back as that one line. */
  lemma LinesOfLine(x: string)
    requires SingleLine(x)
    ensures Lines(x + "\n") == [x]
  {
    LinesCons(x, []);
    assert x + "\n" + [] == x + "\n";
  }

  /** Splitting joined single lines gives back exactly those lines. */
  lemma {:induction false} LinesUnlines(ls: seq<string>)
    requires forall k :: 0 <= k < |ls| ==> SingleLine(ls[k])
    ensures Lines(Unlines(ls)) == ls
  {
    if ls != [] {
      var init, last := ls[..|ls| - 1], ls[|ls| - 1];
      assert forall k :: 0 <= k < |init| ==> init[k] == ls[k];
      assert init + [last] == ls;
      calc {
        Lines(Unlines(ls));
        Lines(Unlines(init) + (last + "\n"));
        { LinesAppend(Unlines(init), last + "\n"); }
        Lines(Unlines(init)) + Lines(last + "\n");
        { LinesUnlines(init); LinesOfLine(last); }
        init + [last];
      }
    }
  }

  /** A text opening with a line break starts with one empty line. */
  lemma LinesOfBreak(b: string)
    ensures Lines("\n" + b) == [""] + Lines(b)
  {
    LinesCons("", b);
    assert "" + "\n" + b == "\n" + b;
  }

  /** A blank line between two texts: the first text's lines, one empty line, then the second's. */
  lemma LinesAroundBlank(a: string, b: string)
    requires a == [] || a[|a| - 1] == '\n'
    ensures Lines(a + "\n" + b) == Lines(a) + [""] + Lines(b)
  {
    calc {
      Lines(a + "\n" + b);
      { assert a + "\n" + b == a + ("\n" + b); }
      Lines(a + ("\n" + b));
      { LinesAppend(a, "\n" + b); }
      Lines(a) + Lines("\n" + b);
      { LinesOfBreak(b); }
      Lines(a) + ([""] + Lines(b));
    }
  }
}
