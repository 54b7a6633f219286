/** Powers of two, single bits of a natural number, and the zero-padded binary
    strings that name the regions of a Venn diagram (`n.toString(2).padStart(N, '0')`). */
module Binary {

  function Pow2(k: nat): (r: nat)
    ensures r >= 1
  {
    if k == 0 then 1 else 2 * Pow2(k - 1)
  }

  /** Bit `k` of `b`, bit 0 being the least significant. */
  predicate Bit(b: nat, k: nat)
  {
    if k == 0 then b % 2 == 1 else Bit(b / 2, k - 1)
  }

  /** `b | (1 << k)`, one bit at a time. */
  function SetBit(b: nat, k: nat): nat
  {
    if k == 0 then (if b % 2 == 1 then b else b + 1)
    else 2 * SetBit(b / 2, k - 1) + b % 2
  }

  lemma {:induction false} SetBitBits(b: nat, k: nat, j: nat)
    ensures Bit(SetBit(b, k), j) <==> j == k || Bit(b, j)
  {
    if k == 0 {
      if j > 0 && b % 2 == 0 {
        assert (b + 1) / 2 == b / 2;
      }
    } else {
      var r := SetBit(b, k);
      assert r / 2 == SetBit(b / 2, k - 1) && r % 2 == b % 2;
      if j > 0 {
        SetBitBits(b / 2, k - 1, j - 1);
      }
    }
  }

  lemma {:induction false} SetBitBound(b: nat, k: nat, width: nat)
    requires b < Pow2(width) && k < width
    ensures SetBit(b, k) < Pow2(width)
  {
    var half := Pow2(width - 1);
    assert Pow2(width) == 2 * half;
    assert b == 2 * (b / 2) + b % 2 && b / 2 < half;
    if k > 0 {
      SetBitBound(b / 2, k - 1, width - 1);
      assert SetBit(b, k) == 2 * SetBit(b / 2, k - 1) + b % 2;
    }
  }

  lemma {:induction false} NoBitsOfZero(k: nat)
    ensures !Bit(0, k)
  {
    if k > 0 {
      NoBitsOfZero(k - 1);
    }
  }

  /** Two numbers below `2^width` that agree on every bit below `width` are equal. */
  lemma {:induction false} BitsDetermine(a: nat, b: nat, width: nat)
    requires a < Pow2(width) && b < Pow2(width)
    requires forall j :: 0 <= j < width ==> (Bit(a, j) <==> Bit(b, j))
    ensures a == b
  {
    if width > 0 {
      assert Bit(a, 0) <==> Bit(b, 0);
      forall j | 0 <= j < width - 1
        ensures Bit(a / 2, j) <==> Bit(b / 2, j)
      {
        assert Bit(a, j + 1) <==> Bit(b, j + 1);
      }
      BitsDetermine(a / 2, b / 2, width - 1);
    }
  }

  function BitChar(set_: bool): char
  {
    if set_ then '1' else '0'
  }

  predicate IsBinary(s: string)
  {
    forall i :: 0 <= i < |s| ==> s[i] == '0' || s[i] == '1'
  }

  /** The low `width` bits of `n`, most significant first. */
  function FixedBinary(n: nat, width: nat): (r: string)
    ensures |r| == width && IsBinary(r)
  {
    if width == 0 then [] else FixedBinary(n / 2, width - 1) + [BitChar(n % 2 == 1)]
  }

  /** Reads a string of '0'/'1' as a binary number, most significant first. */
  function FromBinary(s: string): (r: nat)
  {
    if s == [] then 0 else 2 * FromBinary(s[..|s| - 1]) + (if s[|s| - 1] == '1' then 1 else 0)
  }

  function Zeros(k: nat): (r: string)
    ensures |r| == k && forall i :: 0 <= i < k ==> r[i] == '0'
  {
    if k == 0 then [] else Zeros(k - 1) + ['0']
  }

  /** Character `i` of `FixedBinary(n, width)` is bit `width - 1 - i` of `n`. */
  lemma {:induction false} FixedBinaryAt(n: nat, width: nat, i: nat)
    requires i < width
    ensures FixedBinary(n, width)[i] == BitChar(Bit(n, width - 1 - i))
  {
    if i < width - 1 {
      FixedBinaryAt(n / 2, width - 1, i);
    }
  }

  lemma {:induction false} FromBinaryBound(s: string)
    ensures FromBinary(s) < Pow2(|s|)
  {
    if s != [] {
      FromBinaryBound(s[..|s| - 1]);
    }
  }

  lemma {:induction false} FixedBinaryRoundTrip(n: nat, width: nat)
    requires n < Pow2(width)
    ensures FromBinary(FixedBinary(n, width)) == n
  {
    if width > 0 {
      var s := FixedBinary(n, width);
      assert s[..|s| - 1] == FixedBinary(n / 2, width - 1);
      FixedBinaryRoundTrip(n / 2, width - 1);
    }
  }

  lemma {:induction false} FromBinaryRoundTrip(s: string)
    requires IsBinary(s)
    ensures FixedBinary(FromBinary(s), |s|) == s
  {
    if s != [] {
      var p := s[..|s| - 1];
      FromBinaryRoundTrip(p);
      var n := FromBinary(s);
      assert n / 2 == FromBinary(p);
      assert s == p + [s[|s| - 1]];
    }
  }

  lemma {:induction false} FixedBinaryZero(width: nat)
    ensures FixedBinary(0, width) == Zeros(width)
  {
    if width > 0 {
      FixedBinaryZero(width - 1);
    }
  }

  /** `n.toString(2)`: binary digits without leading zeros ("0" for zero). */
  function ToBase2(n: nat): (r: string)
    ensures |r| >= 1
  {
    if n < 2 then [BitChar(n == 1)] else ToBase2(n / 2) + [BitChar(n % 2 == 1)]
  }

  /** `s.padStart(width, '0')`. */
  function PadStart(s: string, width: nat): (r: string)
  {
    if |s| >= width then s else Zeros(width - |s|) + s
  }

  /** The label key of membership code `n` among `width` groups. */
  function Key(n: nat, width: nat): string
  {
    PadStart(ToBase2(n), width)
  }

  /** Below `2^width`, the padded key is exactly the `width`-bit binary string. */
  lemma {:induction false} KeyIsFixedBinary(n: nat, width: nat)
    requires 1 <= width && n < Pow2(width)
    ensures Key(n, width) == FixedBinary(n, width)
  {
    if n < 2 {
      FixedBinaryZero(width - 1);
      assert FixedBinary(n, width) == Zeros(width - 1) + [BitChar(n == 1)];
    } else {
      assert width >= 2;
      KeyIsFixedBinary(n / 2, width - 1);
      var t := ToBase2(n / 2);
      assert ToBase2(n) == t + [BitChar(n % 2 == 1)];
      if |t| < width - 1 {
        assert Zeros(width - |t| - 1) + (t + [BitChar(n % 2 == 1)])
            == (Zeros(width - 1 - |t|) + t) + [BitChar(n % 2 == 1)];
      }
    }
  }

  /** The keys of the codes `1 .. p - 1`. */
  ghost function KeysBelow(p: nat, width: nat): set<string>
  {
    if p <= 1 then {} else KeysBelow(p - 1, width) + {Key(p - 1, width)}
  }

  /** The keys of the codes `1 .. 2^width - 1`. */
  ghost function KeySet(width: nat): set<string>
  {
    KeysBelow(Pow2(width), width)
  }

  /** A key: `width` binary digits, not all zero. */
  predicate IsKey(s: string, width: nat)
  {
    |s| == width && IsBinary(s) && s != Zeros(width)
  }

  /** Code `n` and its key determine each other. */
  lemma KeyRoundTrip(n: nat, width: nat)
    requires 1 <= n < Pow2(width)
    ensures IsKey(Key(n, width), width) && FromBinary(Key(n, width)) == n
  {
    KeyIsFixedBinary(n, width);
    FixedBinaryRoundTrip(n, width);
    if FixedBinary(n, width) == Zeros(width) {
      FixedBinaryZero(width);
      FixedBinaryRoundTrip(0, width);
    }
  }

  lemma FromKey(s: string, width: nat)
    requires IsKey(s, width)
    ensures 1 <= FromBinary(s) < Pow2(width) && Key(FromBinary(s), width) == s
  {
    FromBinaryBound(s);
    FromBinaryRoundTrip(s);
    if FromBinary(s) == 0 {
      FixedBinaryZero(width);
    }
    KeyIsFixedBinary(FromBinary(s), width);
  }

  lemma {:induction false} KeysBelowAre(p: nat, width: nat, s: string)
    requires p <= Pow2(width)
    ensures s in KeysBelow(p, width) <==> IsKey(s, width) && FromBinary(s) < p
  {
    if p > 1 {
      KeysBelowAre(p - 1, width, s);
      KeyRoundTrip(p - 1, width);
      if IsKey(s, width) && FromBinary(s) == p - 1 {
        FromKey(s, width);
      }
    } else if IsKey(s, width) {
      FromKey(s, width);
    }
  }

  /** Counting up to `2^width` collects the whole key set. */
  lemma KeysBelowTop(p: nat, width: nat)
    requires p == Pow2(width)
    ensures KeysBelow(p, width) == KeySet(width)
  {
  }

  /** The key set holds exactly the keys of width `width`. */
  lemma KeySetIsKeys(width: nat, s: string)
    ensures s in KeySet(width) <==> IsKey(s, width)
  {
    KeysBelowAre(Pow2(width), width, s);
    if IsKey(s, width) {
      FromBinaryBound(s);
    }
  }

  lemma {:induction false} KeysBelowSize(p: nat, width: nat)
    requires p <= Pow2(width)
    ensures |KeysBelow(p, width)| == if p == 0 then 0 else p - 1
  {
    if p > 1 {
      KeysBelowSize(p - 1, width);
      KeyRoundTrip(p - 1, width);
      KeysBelowAre(p - 1, width, Key(p - 1, width));
    }
  }

  /** There are `2^width - 1` keys: no two codes share one. */
  lemma KeySetSize(width: nat)
    ensures |KeySet(width)| == Pow2(width) - 1
  {
    KeysBelowSize(Pow2(width), width);
  }
}
