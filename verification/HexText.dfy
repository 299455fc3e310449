/** Hexadecimal text: what bytes it spells, in either case, with white space between pairs allowed. */
module HexText {
  import opened Bytes

  predicate White(b: byte) {
    b in {9, 10, 11, 12, 13, 32}
  }

  function Solid(s: bytes): (r: bytes) {
    if s == [] then [] else if White(s[0]) then Solid(s[1..]) else [s[0]] + Solid(s[1..])
  }

  /** White space stands only between pairs. */
  predicate BetweenPairs(s: bytes) {
    forall i :: 0 <= i < |s| && White(s[i]) ==> Whole(s[..i])
  }

  /** Only whole pairs so far. */
  predicate Whole(s: bytes) {
    |Solid(s)| % 2 == 0
  }

  /** The byte is the letter of the hexadecimal digit, in either case. */
  predicate Digit(b: byte, n: int) {
    0 <= n < 16 && (b == Ascii("0123456789abcdef")[n] || b == Ascii("0123456789ABCDEF")[n])
  }

  /** The `i`-th pair of digits is this byte. */
  predicate PairAt(digits: bytes, i: nat, b: byte) {
    2 * i + 1 < |digits| && Digit(digits[2 * i], b / 16) && Digit(digits[2 * i + 1], b % 16)
  }

  /** Two hexadecimal digits a byte. */
  predicate Spells(s: bytes, v: bytes) {
    BetweenPairs(s) && |Solid(s)| == 2 * |v| && forall i :: 0 <= i < |v| ==> PairAt(Solid(s), i, v[i])
  }

  lemma SolidSkips(s: bytes)
    requires s != [] && White(s[0])
    ensures Solid(s) == Solid(s[1..]) && (BetweenPairs(s) <==> BetweenPairs(s[1..]))
  {
    hide White, Solid, Whole;
    SolidOne(s);
    var rest := s[1..];
    assert s[..0] == [];
    WholeNothing();
    forall i | 1 <= i < |s| ensures Whole(s[..i]) <==> Whole(rest[..i - 1]) {
      SolidOne(s[..i]);
      assert s[..i][1..] == rest[..i - 1];
    }
    forall i | 0 <= i < |rest| ensures rest[i] == s[i + 1] && (Whole(rest[..i]) <==> Whole(s[..i + 1])) {
    }
  }

  lemma SolidOne(s: bytes)
    requires s != [] && White(s[0])
    ensures Solid(s) == Solid(s[1..]) && (Whole(s) <==> Whole(s[1..]))
  {
    hide White;
  }

  lemma WholeNothing()
    ensures Whole([])
  {
  }

  lemma SolidTwo(s: bytes)
    requires |s| >= 2 && !White(s[0]) && !White(s[1])
    ensures Solid(s) == [s[0], s[1]] + Solid(s[2..])
  {
    hide White;
    assert s[1..][1..] == s[2..] && s[1..][0] == s[1];
  }

  lemma SolidPair(s: bytes)
    requires |s| >= 2 && !White(s[0]) && !White(s[1])
    ensures Solid(s) == [s[0], s[1]] + Solid(s[2..]) && (BetweenPairs(s) <==> BetweenPairs(s[2..]))
  {
    SolidTwo(s);
    hide Solid, White, Whole;
    var rest := s[2..];
    forall i | 2 <= i < |s| ensures Whole(s[..i]) <==> Whole(rest[..i - 2]) {
      WholeTwo(s[..i]);
      assert s[..i][2..] == rest[..i - 2];
    }
    forall i | 0 <= i < |rest| ensures rest[i] == s[i + 2] && (Whole(rest[..i]) <==> Whole(s[..i + 2])) {
    }
  }

  lemma WholeTwo(s: bytes)
    requires |s| >= 2 && !White(s[0]) && !White(s[1])
    ensures Whole(s) <==> Whole(s[2..])
  {
    SolidTwo(s);
    hide Solid, White;
  }

  lemma SolidLone(s: bytes)
    requires s != [] && !White(s[0]) && (|s| == 1 || White(s[1]))
    ensures forall v :: !Spells(s, v)
  {
    if |s| == 1 {
      assert Solid(s[1..]) == [] && |Solid(s)| == 1;
    } else {
      var t := s[..1];
      assert t[1..] == [] && t[0] == s[0] && Solid(t) == [s[0]];
      assert |Solid(t)| % 2 == 1;
      assert !Whole(s[..1]);
    }
  }

  lemma SpellsPair(s: bytes, v: bytes)
    requires |s| >= 2 && !White(s[0]) && !White(s[1])
    ensures Spells(s, v) <==> v != [] && Digit(s[0], v[0] / 16) && Digit(s[1], v[0] % 16) && Spells(s[2..], v[1..])
  {
    hide BetweenPairs, Solid, White, PairAt, Digit;
    SolidPair(s);
    var digits := Solid(s[2..]);
    FirstPair(s[0], s[1], digits, if v == [] then 0 else v[0]);
    forall i: nat, b: byte ensures PairAt([s[0], s[1]] + digits, i + 1, b) <==> PairAt(digits, i, b) {
      LaterPair(s[0], s[1], digits, i, b);
    }
    if v != [] {
      assert v == [v[0]] + v[1..];
      if forall i :: 0 <= i < |v| ==> PairAt(Solid(s), i, v[i]) {
        forall i | 0 <= i < |v[1..]| ensures PairAt(digits, i, v[1..][i]) {
          assert PairAt(Solid(s), i + 1, v[i + 1]);
        }
      }
      if PairAt(Solid(s), 0, v[0]) && forall i :: 0 <= i < |v[1..]| ==> PairAt(digits, i, v[1..][i]) {
        forall i | 0 <= i < |v| ensures PairAt(Solid(s), i, v[i]) {
          if i > 0 {
            assert PairAt(digits, i - 1, v[1..][i - 1]);
            LaterPair(s[0], s[1], digits, i - 1, v[i]);
          }
        }
      }
    }
  }

  lemma FirstPair(x: byte, y: byte, digits: bytes, b: byte)
    ensures PairAt([x, y] + digits, 0, b) <==> Digit(x, b / 16) && Digit(y, b % 16)
  {
    hide Digit;
  }

  lemma LaterPair(x: byte, y: byte, digits: bytes, i: nat, b: byte)
    ensures PairAt([x, y] + digits, i + 1, b) <==> PairAt(digits, i, b)
  {
    hide Digit;
  }

  lemma SpellsSkips(s: bytes, v: bytes)
    requires s != [] && White(s[0])
    ensures Spells(s, v) <==> Spells(s[1..], v)
  {
    hide BetweenPairs, Digit, Solid;
    SolidSkips(s);
  }

  lemma NothingSpelled(v: bytes)
    ensures Spells([], v) <==> v == []
  {
  }
}
