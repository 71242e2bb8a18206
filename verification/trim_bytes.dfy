/** The cut of `trimCell` (row/row.go) as the Go code performs it: the limit is
    counted in characters but the slice `cell[:max]` is taken in bytes of the
    UTF-8 encoding. The two agree on ASCII text and disagree on anything wider. */
module TrimBytes {
  import opened Text
  import Rows

  type Byte = b: int | 0 <= b < 256

  /** The byte of `.`. */
  const Dot: Byte := 0x2E

  /** A UTF-8 continuation byte, `10xxxxxx`. */
  predicate IsContinuation(b: Byte)
  {
    0x80 <= b < 0xC0
  }

  /** The UTF-8 encoding of one character: one byte below 0x80, otherwise a lead
      byte announcing the length followed by continuation bytes. */
  function EncodeRune(c: char): (r: seq<Byte>)
    ensures 1 <= |r| <= 4
    ensures |r| == 1 <==> (c as int) < 0x80
    ensures |r| == 1 ==> r[0] == c as int
    ensures |r| == 2 ==> 0xC0 <= r[0] < 0xE0
    ensures forall k :: 1 <= k < |r| ==> IsContinuation(r[k])
  {
    var n := c as int;
    if n < 0x80 then [n]
    else if n < 0x800 then [0xC0 + n / 64, 0x80 + n % 64]
    else if n < 0x10000 then [0xE0 + n / 4096, 0x80 + (n / 64) % 64, 0x80 + n % 64]
    else [0xF0 + n / 262144, 0x80 + (n / 4096) % 64, 0x80 + (n / 64) % 64, 0x80 + n % 64]
  }

  /** The code point carried by one encoded character: the lead byte's payload
      followed by six bits from each continuation byte. */
  function RuneValue(r: seq<Byte>): int
    requires 1 <= |r| <= 4
  {
    var b: seq<int> := r;
    if |b| == 1 then b[0]
    else if |b| == 2 then (b[0] - 0xC0) * 64 + (b[1] - 0x80)
    else if |b| == 3 then ((b[0] - 0xE0) * 64 + (b[1] - 0x80)) * 64 + (b[2] - 0x80)
    else (((b[0] - 0xF0) * 64 + (b[1] - 0x80)) * 64 + (b[2] - 0x80)) * 64 + (b[3] - 0x80)
  }

  /** Decoding an encoded character gives back its code point. */
  lemma EncodeRuneDecodes(c: char)
    ensures RuneValue(EncodeRune(c)) == c as int
  {
    var n := c as int;
    if 0x80 <= n < 0x800 {
      Split64(n);
    } else if 0x800 <= n < 0x10000 {
      Split64(n);
      Split64(n / 64);
      assert n / 64 / 64 == n / 4096;
    } else if n >= 0x10000 {
      Split64(n);
      Split64(n / 64);
      Split64(n / 4096);
      assert n / 64 / 64 == n / 4096;
      assert n / 4096 / 64 == n / 262144;
    }
  }

  /** A number is its high part times 64 plus its low six bits. */
  lemma Split64(n: nat)
    ensures n / 64 * 64 + n % 64 == n
  {
  }

  /** The bytes of a Go string holding `s`. */
  function Encode(s: string): seq<Byte>
  {
    if |s| == 0 then [] else EncodeRune(s[0]) + Encode(s[1..])
  }

  /** Every character takes at least one byte, and exactly one when it is ASCII. */
  lemma {:induction false} EncodeLength(s: string)
    ensures |Encode(s)| >= |s|
    ensures Ascii(s) ==> |Encode(s)| == |s|
  {
    if |s| > 0 {
      EncodeLength(s[1..]);
    }
  }

  /** Every character is below 0x80, so it takes one byte. */
  predicate Ascii(s: string)
  {
    forall i :: 0 <= i < |s| ==> (s[i] as int) < 0x80
  }

  /** On ASCII text byte `i` is character `i`. */
  lemma {:induction false} EncodeAscii(s: string)
    requires Ascii(s)
    ensures |Encode(s)| == |s|
    ensures forall i :: 0 <= i < |s| ==> Encode(s)[i] == s[i] as int
  {
    if |s| > 0 {
      assert Ascii(s[1..]) by {
        forall i | 0 <= i < |s| - 1 ensures (s[1..][i] as int) < 0x80 {
          assert s[1..][i] == s[i + 1];
        }
      }
      EncodeAscii(s[1..]);
      var e := Encode(s);
      assert e == [s[0] as int] + Encode(s[1..]);
      forall i | 1 <= i < |s| ensures e[i] == s[i] as int {
        assert e[i] == Encode(s[1..])[i - 1] && s[1..][i - 1] == s[i];
      }
    }
  }

  /** `trimCell` as written: the limit is compared with the character count, and
      the cut `cell[:max]` is taken in bytes. */
  function TrimCellAsWritten(cell: string, max: int): (r: seq<Byte>)
    ensures |r| == if |cell| <= Clamp0(max) then |Encode(cell)| else Clamp0(max)
  {
    var m := Clamp0(max);
    var b := Encode(cell);
    EncodeLength(cell);
    if |cell| <= m then b
    else if m <= 3 then b[..m]
    else b[..m - 3] + [Dot, Dot, Dot]
  }

  /** On ASCII cells the byte cut is the character cut. */
  lemma AsciiAgrees(cell: string, max: int)
    requires Ascii(cell)
    ensures TrimCellAsWritten(cell, max) == Encode(Rows.TrimCell(cell, max))
  {
    var m := Clamp0(max);
    var r := Rows.TrimCell(cell, max);
    assert Ascii(r) by {
      if |cell| > m && m > 3 {
        assert r == cell[..m - 3] + "...";
        forall i | 0 <= i < |r| ensures (r[i] as int) < 0x80 {
          if i < m - 3 {
            assert r[i] == cell[i];
          }
        }
      } else {
        assert r == cell[..|r|];
        forall i | 0 <= i < |r| ensures (r[i] as int) < 0x80 {
          assert r[i] == cell[i];
        }
      }
    }
    EncodeAscii(cell);
    EncodeAscii(r);
    var w, e := TrimCellAsWritten(cell, max), Encode(r);
    forall i | 0 <= i < |w| ensures w[i] == e[i] {
      if |cell| > m && m > 3 && i >= m - 3 {
        assert r[m - 3..][i - (m - 3)] == '.';
      } else {
        assert r[i] == cell[i];
      }
    }
  }

  /** Five `é` (two bytes each) against a limit of 4: the character count 5 exceeds
      4, so the code keeps `cell[:1]`, the lead byte of the first `é` without its
      continuation byte, and appends `...`. */
  lemma CutSplitsCharacter()
    ensures TrimCellAsWritten("ééééé", 4) == [0xC3, Dot, Dot, Dot]
  {
    var b := Encode("ééééé");
    assert EncodeRune('é') == [0xC3, 0xA9];
    assert "ééééé"[1..] == "éééé";
    assert b == [0xC3, 0xA9] + Encode("éééé");
  }

  /** No string encodes to a lead byte followed by `.`: the cut output is not valid
      UTF-8, so it cannot be the text of any cell. */
  lemma NotAnEncoding(s: string)
    ensures Encode(s) != [0xC3, Dot, Dot, Dot]
  {
    if |s| > 0 {
      var first := EncodeRune(s[0]);
      assert Encode(s) == first + Encode(s[1..]);
      if |first| == 1 {
        assert Encode(s)[0] == s[0] as int;
      } else {
        assert Encode(s)[1] == first[1];
      }
    }
  }

  /** The character cut of the same input keeps one whole `é` before the marker. */
  lemma CharacterCutKeepsCharacter()
    ensures Rows.TrimCell("ééééé", 4) == "é..."
    ensures Encode(Rows.TrimCell("ééééé", 4)) == [0xC3, 0xA9, Dot, Dot, Dot]
  {
    assert "ééééé"[..1] == "é";
    assert "é..."[1..] == "...";
    assert "..."[1..] == "..";
    assert ".."[1..] == ".";
  }
}
