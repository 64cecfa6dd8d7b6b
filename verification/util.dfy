/** `load_atoms/util.py`: indenting every line of a text, and the
    ten-cell text progress bar shown while iterating.
 */
module Util {
  import opened Wrappers
  import Strings
  import Arith

  const DONE: char := '█'
  const TODO: char := '░'

  // ---------------------------------------------------------------------
  // pad

  /** Each line with `other` in front. */
  function Prefixed(lines: seq<string>, other: string): (r: seq<string>)
    ensures |r| == |lines|
    ensures forall i :: 0 <= i < |lines| ==> r[i] == other + lines[i]
  {
    seq(|lines|, i requires 0 <= i < |lines| => other + lines[i])
  }

  /** `pad(s, other)`: `"\n".join(other + line for line in s.splitlines())`. */
  function Pad(s: string, other: string): (r: string)
    ensures s == "" ==> r == ""
  {
    Strings.Join("\n", Prefixed(Strings.SplitLines(s), other))
  }

  /** No line `splitlines` produces contains a line break. */
  lemma {:induction false} LinesHaveNoBreak(s: string, cur: string)
    requires Strings.NoLineBreak(cur)
    ensures forall l :: l in Strings.Lines(s, cur) ==> Strings.NoLineBreak(l)
    decreases |s|
  {
    if |s| == 0 {
    } else if s[0] == '\r' && |s| >= 2 && s[1] == '\n' {
      LinesHaveNoBreak(s[2..], "");
    } else if Strings.IsLineBreak(s[0]) {
      LinesHaveNoBreak(s[1..], "");
    } else {
      var next := cur + [s[0]];
      assert forall i :: 0 <= i < |next| ==> !Strings.IsLineBreak(next[i]) by {
        forall i | 0 <= i < |next| ensures !Strings.IsLineBreak(next[i]) {
          if i < |cur| {
            assert next[i] == cur[i];
          }
        }
      }
      LinesHaveNoBreak(s[1..], next);
    }
  }

  /** Break-free lines stay break-free behind a break-free prefix. */
  lemma PrefixedHasNoBreak(lines: seq<string>, other: string)
    requires Strings.NoLineBreak(other)
    requires forall l :: l in lines ==> Strings.NoLineBreak(l)
    ensures forall i :: 0 <= i < |lines| ==> Strings.NoLineBreak(Prefixed(lines, other)[i])
  {
    forall i | 0 <= i < |lines| ensures Strings.NoLineBreak(Prefixed(lines, other)[i]) {
      var l := lines[i];
      assert l in lines;
      forall k | 0 <= k < |other + l| ensures !Strings.IsLineBreak((other + l)[k]) {
        if k < |other| {
          assert (other + l)[k] == other[k];
        } else {
          assert (other + l)[k] == l[k - |other|];
        }
      }
    }
  }

  /** Padding with a non-empty, break-free prefix keeps the lines: the
      padded text splits into the original lines, each with the prefix in
      front, so the number of lines is unchanged. */
  lemma PadKeepsLines(s: string, other: string)
    requires other != "" && Strings.NoLineBreak(other)
    ensures Strings.SplitLines(Pad(s, other)) == Prefixed(Strings.SplitLines(s), other)
    ensures |Strings.SplitLines(Pad(s, other))| == |Strings.SplitLines(s)|
  {
    var lines := Strings.SplitLines(s);
    LinesHaveNoBreak(s, "");
    PrefixedHasNoBreak(lines, other);
    var padded := Prefixed(lines, other);
    if |padded| > 0 {
      assert |padded[|padded| - 1]| >= |other| > 0;
    }
    Strings.SplitLinesOfJoin(padded);
  }

  /** A text written as break-free lines joined by newlines, the last one
      not empty, is padded line by line. */
  lemma PadOfJoin(lines: seq<string>, other: string)
    requires forall i :: 0 <= i < |lines| ==> Strings.NoLineBreak(lines[i])
    requires |lines| > 0 ==> lines[|lines| - 1] != ""
    ensures Pad(Strings.Join("\n", lines), other) == Strings.Join("\n", Prefixed(lines, other))
  {
    Strings.SplitLinesOfJoin(lines);
  }

  /** Two lines joined by a newline. */
  lemma JoinTwo(a: string, b: string)
    ensures Strings.Join("\n", [a, b]) == a + "\n" + b
  {
    assert [a, b][1..] == [b];
  }

  /** Two lines padded by two spaces. */
  lemma PadExample()
    ensures Pad("hi\nthere", "  ") == "  hi\n  there"
  {
    var lines := ["hi", "there"];
    var padded := ["  hi", "  there"];
    assert Strings.Join("\n", lines) == "hi\nthere" by {
      JoinTwo("hi", "there");
    }
    assert Strings.Join("\n", padded) == "  hi\n  there" by {
      JoinTwo("  hi", "  there");
    }
    assert Prefixed(lines, "  ") == padded by {
      var p := Prefixed(lines, "  ");
      assert p[0] == "  hi" && p[1] == "  there";
    }
    assert forall i :: 0 <= i < |lines| ==> Strings.NoLineBreak(lines[i]) by {
      assert Strings.NoLineBreak("hi") && Strings.NoLineBreak("there");
    }
    PadOfJoin(lines, "  ");
  }

  // ---------------------------------------------------------------------
  // progress_bar

  /** `int(min(count / total, 1) * 10)`, in exact arithmetic; dividing by
      a zero total raises. */
  function Tenths(count: nat, total: nat): (r: Result<nat>)
    ensures r.Err? <==> total == 0
    ensures r.Err? ==> r.error.ZeroDivisionError?
    ensures r.Ok? ==> r.value <= 10
    ensures r.Ok? ==> (r.value == 10 <==> count >= total)
    ensures r.Ok? && count < total ==> r.value * total <= count * 10 < (r.value + 1) * total
  {
    if total == 0 then Err(ZeroDivisionError("division by zero"))
    else if count >= total then Ok(10)
    else
      var t := (count * 10) / total;
      assert count * 10 == t * total + (count * 10) % total;
      assert t <= 9 by {
        assert t * total <= count * 10 < 10 * total;
        Arith.BelowOneMultiple(t - 9, total);
      }
      Ok(t)
  }

  /** More items done never shrinks the bar. */
  lemma TenthsMonotone(c1: nat, c2: nat, total: nat)
    requires total > 0 && c1 <= c2
    ensures Tenths(c1, total).value <= Tenths(c2, total).value
  {
    if c2 < total {
      Arith.DivMonotone(c1 * 10, c2 * 10, total);
    }
  }

  /** `n` copies of `c`, as `c * n`. */
  function Repeat(c: char, n: nat): (r: string)
    ensures |r| == n && forall i :: 0 <= i < n ==> r[i] == c
  {
    seq(n, _ => c)
  }

  /** The bar drawn after `count` of `total` items: ten cells, the first
      `Tenths(count, total)` of them done. */
  function Bar(count: nat, total: nat): (r: Result<string>)
    ensures r.Err? <==> total == 0
    ensures r.Ok? ==> |r.value| == 10
    ensures r.Ok? ==> forall i :: 0 <= i < 10 ==> (r.value[i] == DONE <==> i < Tenths(count, total).value)
  {
    var t :- Tenths(count, total);
    Ok(Repeat(DONE, t) + Repeat(TODO, 10 - t))
  }

  /** The number of done cells in a bar. */
  function DoneCells(bar: string): nat {
    if bar == [] then 0 else (if bar[0] == DONE then 1 else 0) + DoneCells(bar[1..])
  }

  /** The done cells of a bar count its tenths. */
  lemma {:induction false} DoneCellsOfBar(t: nat, n: nat)
    ensures DoneCells(Repeat(DONE, t) + Repeat(TODO, n)) == t
    decreases t + n
  {
    var b := Repeat(DONE, t) + Repeat(TODO, n);
    if t > 0 {
      assert b[1..] == Repeat(DONE, t - 1) + Repeat(TODO, n);
      DoneCellsOfBar(t - 1, n);
    } else if n > 0 {
      assert b[1..] == Repeat(DONE, 0) + Repeat(TODO, n - 1);
      assert b[0] == TODO;
      DoneCellsOfBar(0, n - 1);
    } else {
      assert b == [];
    }
  }

  /** `progress_bar(iterable, N)`: the items yielded and the bars drawn, one
      before the first item and one after each. A zero `N` raises on the
      first bar, before any item is yielded. */
  function ProgressBar<T>(items: seq<T>, total: nat): (r: (seq<T>, Result<seq<string>>))
    ensures total == 0 ==> r.0 == [] && r.1.Err? && r.1.error.ZeroDivisionError?
    ensures total > 0 ==> r.0 == items && r.1.Ok? && |r.1.value| == |items| + 1
    ensures total > 0 ==> forall k :: 0 <= k <= |items| ==> Bar(k, total) == Ok(r.1.value[k])
  {
    if total == 0 then ([], Err(ZeroDivisionError("division by zero")))
    else (items, Ok(seq(|items| + 1, k requires 0 <= k <= |items| => Bar(k, total).value)))
  }

  /** The bars never shrink, start with no done cell, and end full exactly
      when at least `N` items were seen. */
  lemma ProgressBarGrows<T>(items: seq<T>, total: nat, j: nat, k: nat)
    requires total > 0 && j <= k <= |items|
    ensures var bars := ProgressBar(items, total).1.value;
            && DoneCells(bars[j]) <= DoneCells(bars[k])
            && DoneCells(bars[0]) == 0
            && (DoneCells(bars[|items|]) == 10 <==> |items| >= total)
  {
    var bars := ProgressBar(items, total).1.value;
    forall m | 0 <= m <= |items| ensures DoneCells(bars[m]) == Tenths(m, total).value {
      var t := Tenths(m, total).value;
      DoneCellsOfBar(t, 10 - t);
    }
    TenthsMonotone(j, k, total);
  }
}
