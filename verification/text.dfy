/** Small string helpers shared by the row, draw and table modules. */
module Text {

  /** A negative count is treated as zero. */
  function Clamp0(x: int): nat
  {
    if x < 0 then 0 else x
  }

  /** The largest value of Go's `int`, which is 64 bits wide. */
  const IntMax: int := 0x7FFF_FFFF_FFFF_FFFF

  /** The values of Go's 64-bit `int`. */
  type Int64 = x: int | -IntMax - 1 <= x <= IntMax

  /** Go's 64-bit `int` addition or subtraction result: two's-complement wrap-around.
      A value in range is kept; one that overflows by less than 2^64 loses 2^64, one
      that underflows by less than 2^64 gains it, and no non-negative value grows. */
  function Wrap64(x: int): (r: Int64)
    ensures -IntMax - 1 <= x <= IntMax ==> r == x
    ensures IntMax < x <= IntMax + 0x1_0000_0000_0000_0000 ==> r == x - 0x1_0000_0000_0000_0000
    ensures -IntMax - 1 - 0x1_0000_0000_0000_0000 <= x < -IntMax - 1 ==> r == x + 0x1_0000_0000_0000_0000
    ensures x >= 0 ==> r <= x
  {
    (x + IntMax + 1) % 0x1_0000_0000_0000_0000 - IntMax - 1
  }

  function Min(a: int, b: int): int
  {
    if a <= b then a else b
  }

  function Max(a: int, b: int): int
  {
    if a >= b then a else b
  }

  /** `n` copies of `c`. A count <= 0 yields nothing, as a Go loop
      `for i := 0; i < n; i++` does. */
  function Repeat(c: char, n: int): (r: string)
    ensures |r| == Clamp0(n)
    ensures forall i :: 0 <= i < |r| ==> r[i] == c
    decreases Clamp0(n)
  {
    if n <= 0 then [] else [c] + Repeat(c, n - 1)
  }

  /** Two runs of one glyph make one run. */
  lemma {:induction false} RepeatAppend(c: char, m: nat, n: nat)
    ensures Repeat(c, m) + Repeat(c, n) == Repeat(c, m + n)
  {
    if m > 0 {
      RepeatAppend(c, m - 1, n);
      assert Repeat(c, m) + Repeat(c, n) == [c] + (Repeat(c, m - 1) + Repeat(c, n));
    }
  }

  /** Sum of a sequence of counts, where negative counts contribute nothing. */
  function SumPos(xs: seq<int>): nat
  {
    if |xs| == 0 then 0 else Clamp0(xs[0]) + SumPos(xs[1..])
  }

  /** Summing distributes over concatenation. */
  lemma {:induction false} SumPosAppend(xs: seq<int>, ys: seq<int>)
    ensures SumPos(xs + ys) == SumPos(xs) + SumPos(ys)
  {
    if |xs| == 0 {
      assert xs + ys == ys;
    } else {
      assert (xs + ys)[1..] == xs[1..] + ys;
      SumPosAppend(xs[1..], ys);
    }
  }

  /** The lines joined by single newlines, with no trailing newline. */
  function Join(lines: seq<string>): string
  {
    if |lines| == 0 then ""
    else if |lines| == 1 then lines[0]
    else lines[0] + "\n" + Join(lines[1..])
  }

  /** Joining two non-empty blocks of lines puts exactly one newline between them. */
  lemma {:induction false} JoinAppend(a: seq<string>, b: seq<string>)
    requires |a| > 0 && |b| > 0
    ensures Join(a + b) == Join(a) + "\n" + Join(b)
  {
    if |a| == 1 {
      assert (a + b)[1..] == b;
    } else {
      assert (a + b)[1..] == a[1..] + b;
      JoinAppend(a[1..], b);
    }
  }

  /** Joining two blocks of lines puts one newline between them, none when the
      second block is empty. */
  lemma JoinGlue(a: seq<string>, b: seq<string>)
    requires |a| > 0
    ensures Join(a + b) == Join(a) + (if |b| > 0 then "\n" else "") + Join(b)
  {
    if |b| > 0 {
      JoinAppend(a, b);
    } else {
      assert a + b == a;
    }
  }

  /** A line with an optional line before it and an optional line after it. */
  lemma JoinFramed(a: bool, x: string, line: string, b: bool, y: string)
    ensures Join((if a then [x] else []) + [line] + (if b then [y] else []))
      == (if a then x + "\n" else "") + line + (if b then "\n" + y else "")
  {
    var top: seq<string> := if a then [x] else [];
    var bot: seq<string> := if b then [y] else [];
    if b {
      JoinAppend([line], bot);
    } else {
      assert [line] + bot == [line];
    }
    if a {
      JoinAppend(top, [line] + bot);
      assert top + [line] + bot == top + ([line] + bot);
    } else {
      assert top + [line] + bot == [line] + bot;
    }
  }

  /** Two blocks of lines of one width make one block of that width. */
  lemma UniformAppend(a: seq<string>, b: seq<string>, w: int)
    requires forall k :: 0 <= k < |a| ==> |a[k]| == w
    requires forall k :: 0 <= k < |b| ==> |b[k]| == w
    ensures forall k :: 0 <= k < |a + b| ==> |(a + b)[k]| == w
  {
  }

  /** No line contains a newline. */
  predicate BreakFreeLines(lines: seq<string>)
  {
    forall k :: 0 <= k < |lines| ==> '\n' !in lines[k]
  }

  /** Two blocks of newline-free lines make one. */
  lemma BreakFreeAppend(a: seq<string>, b: seq<string>)
    requires BreakFreeLines(a) && BreakFreeLines(b)
    ensures BreakFreeLines(a + b)
  {
  }

  /** Number of occurrences of `c` in `s`. */
  function Count(s: string, c: char): nat
  {
    if |s| == 0 then 0 else (if s[0] == c then 1 else 0) + Count(s[1..], c)
  }

  /** Counting distributes over concatenation. */
  lemma {:induction false} CountAppend(s: string, t: string, c: char)
    ensures Count(s + t, c) == Count(s, c) + Count(t, c)
  {
    if |s| == 0 {
      assert s + t == t;
    } else {
      assert (s + t)[1..] == s[1..] + t;
      CountAppend(s[1..], t, c);
    }
  }

  /** A character that does not occur is counted zero times. */
  lemma {:induction false} CountAbsent(s: string, c: char)
    requires c !in s
    ensures Count(s, c) == 0
  {
    if |s| > 0 {
      assert c !in s[1..] by {
        forall k | 0 <= k < |s[1..]| ensures s[1..][k] != c {
          assert s[1..][k] == s[k + 1];
        }
      }
      CountAbsent(s[1..], c);
    }
  }

  /** A newline-joined block of newline-free lines has one newline fewer than it has lines. */
  lemma {:induction false} JoinNewlines(lines: seq<string>)
    requires |lines| > 0 && BreakFreeLines(lines)
    ensures Count(Join(lines), '\n') == |lines| - 1
  {
    CountAbsent(lines[0], '\n');
    if |lines| > 1 {
      JoinNewlines(lines[1..]);
      CountAppend(lines[0], "\n", '\n');
      CountAppend(lines[0] + "\n", Join(lines[1..]), '\n');
    }
  }
}
