/** Small shared vocabulary: optional values, saturating arithmetic, character classes. */
module Common {

  datatype Option<+T> = None | Some(value: T)

  type Byte = b: int | 0 <= b < 256

  const ESC: Byte := 0x1b

  type PaneId = nat

  function Lookup<K(==), V>(m: map<K, V>, k: K): Option<V> { if k in m then Some(m[k]) else None }

  function Min(a: int, b: int): int { if a <= b then a else b }

  function Max(a: int, b: int): int { if a >= b then a else b }

  /** Rust's `saturating_sub` on an unsigned type. */
  function SatSub(a: nat, b: nat): nat { if a >= b then a - b else 0 }

  /** Rust's `abs_diff` on an unsigned type. */
  function AbsDiff(a: nat, b: nat): nat { if a >= b then a - b else b - a }

  function Abs(a: int): nat { if a >= 0 then a else -a }

  function Clamp(v: real, lo: real, hi: real): real
  {
    if v < lo then lo else if v > hi then hi else v
  }

  lemma MulNonNegative(d: real, r: real)
    requires d >= 0.0 && r >= 0.0
    ensures d * r >= 0.0
  {
  }

  /** `round()` on a non-negative value: ties go up, away from zero. */
  function Round(v: real): int { (v + 0.5).Floor }

  /** The Unicode White_Space property, which `trim` and `trim_end` strip. */
  predicate IsWhitespace(c: char)
  {
    || '\U{0009}' <= c <= '\U{000D}'
    || c in ['\U{0020}', '\U{0085}', '\U{00A0}', '\U{1680}', '\U{2028}', '\U{2029}', '\U{202F}', '\U{205F}', '\U{3000}']
    || '\U{2000}' <= c <= '\U{200A}'
  }

  /** `trim_end`: drop the longest whitespace suffix. */
  function TrimEnd(s: string): (t: string)
    ensures t <= s
    ensures t != [] ==> !IsWhitespace(t[|t| - 1])
    ensures forall i :: |t| <= i < |s| ==> IsWhitespace(s[i])
  {
    if s != [] && IsWhitespace(s[|s| - 1]) then TrimEnd(s[..|s| - 1]) else s
  }

  lemma {:induction false} HasMinimum(s: set<nat>)
    requires s != {}
    ensures exists m :: m in s && forall x :: x in s ==> m <= x
    decreases |s|
  {
    var y :| y in s;
    var rest := s - {y};
    if rest == {} {
      assert s == {y};
    } else {
      HasMinimum(rest);
      var m :| m in rest && forall x :: x in rest ==> m <= x;
      forall x | x in s ensures Min(m, y) <= x {
        assert x == y || x in rest;
      }
      assert Min(m, y) in s;
    }
  }

  /** The first key a sorted map iterates over. */
  function Least(s: set<nat>): (m: nat)
    requires s != {}
    ensures m in s
    ensures forall x :: x in s ==> m <= x
  {
    HasMinimum(s);
    var m :| m in s && forall x :: x in s ==> m <= x;
    m
  }
}
