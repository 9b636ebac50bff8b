/** The SVG ids a wire is drawn with: the wire id stripped of every character outside
    `[A-Za-z0-9_-]`, or, when nothing is left, `wire-` and the magnitude of a 32-bit
    string hash; and the gradient and glow ids built on it. */
module WireIds {
  import opened Decimal

  predicate IsIdChar(c: char)
  {
    ('a' <= c <= 'z') || ('A' <= c <= 'Z') || ('0' <= c <= '9') || c == '_' || c == '-'
  }

  predicate AllIdChars(s: string)
  {
    forall i :: 0 <= i < |s| ==> IsIdChar(s[i])
  }

  /** `id.replace(/[^a-zA-Z0-9_-]/g, '')`: the id characters of `s`, in order. */
  function Sanitize(s: string): (r: string)
    ensures AllIdChars(r) && |r| <= |s|
    ensures forall c <- r :: c in s
    ensures forall c <- s :: IsIdChar(c) ==> c in r
  {
    if s == [] then []
    else
      assert forall c <- s :: c == s[0] || c in s[1..];
      (if IsIdChar(s[0]) then [s[0]] else []) + Sanitize(s[1..])
  }

  /** Sanitizing works character by character, so it keeps the order. */
  lemma {:induction false} SanitizeAppend(a: string, b: string)
    ensures Sanitize(a + b) == Sanitize(a) + Sanitize(b)
  {
    if a != [] {
      assert (a + b)[1..] == a[1..] + b;
      SanitizeAppend(a[1..], b);
    } else {
      assert a + b == b;
    }
  }

  /** An id made of id characters only is left as it is; so sanitizing twice is sanitizing once. */
  lemma {:induction false} SanitizeKeepsIdChars(s: string)
    requires AllIdChars(s)
    ensures Sanitize(s) == s
  {
    if s != [] {
      SanitizeKeepsIdChars(s[1..]);
    }
  }

  lemma SanitizeIdempotent(s: string)
    ensures Sanitize(Sanitize(s)) == Sanitize(s)
  {
    SanitizeKeepsIdChars(Sanitize(s));
  }

  /** Nothing is left exactly when the id has no id character. */
  lemma {:induction false} SanitizeEmptyIff(s: string)
    ensures Sanitize(s) == [] <==> forall i :: 0 <= i < |s| ==> !IsIdChar(s[i])
  {
    if s != [] {
      SanitizeEmptyIff(s[1..]);
      assert forall i :: 1 <= i < |s| ==> s[i] == s[1..][i - 1];
    }
  }

  // ---------------------------------------------------------------- 32-bit arithmetic

  const TwoTo31: int := 0x8000_0000
  const TwoTo32: int := 0x1_0000_0000

  /** ECMAScript ToInt32: the signed 32-bit integer congruent to `n` modulo 2^32. */
  function ToInt32(n: int): (r: int)
    ensures -TwoTo31 <= r < TwoTo31
    ensures (n - r) % TwoTo32 == 0
  {
    var m := n % TwoTo32;
    if m >= TwoTo31 then m - TwoTo32 else m
  }

  /** Numbers congruent modulo 2^32 wrap to the same 32-bit integer. */
  lemma ToInt32Congruent(a: int, b: int)
    requires (a - b) % TwoTo32 == 0
    ensures ToInt32(a) == ToInt32(b)
  {
    var q := (a - b) / TwoTo32;
    assert a == b + q * TwoTo32;
    ModOfShift(b, q);
  }

  lemma ModOfShift(b: int, q: int)
    ensures (b + q * TwoTo32) % TwoTo32 == b % TwoTo32
  {
  }

  /** `hash << 5`: the low 32 bits of `hash * 32`, read as a signed integer. */
  function ShiftLeft5(hash: int): int
  {
    ToInt32(hash * 32)
  }

  /** UTF-16 code units of a code point, which is what `charCodeAt` reads. */
  function CodeUnitsOf(c: char): (r: seq<int>)
    ensures 1 <= |r| <= 2 && forall u <- r :: 0 <= u < 0x1_0000
  {
    var v := c as int;
    if v < 0x1_0000 then [v]
    else [0xD800 + (v - 0x1_0000) / 0x400, 0xDC00 + (v - 0x1_0000) % 0x400]
  }

  function CodeUnits(s: string): (r: seq<int>)
    ensures |r| >= |s|
    ensures forall u <- r :: 0 <= u < 0x1_0000
  {
    if s == [] then [] else CodeUnits(s[..|s| - 1]) + CodeUnitsOf(s[|s| - 1])
  }

  /** The polynomial hash `sum of units[i] * 31^(n-1-i)`, unbounded. */
  function PolynomialHash(units: seq<int>): int
  {
    if units == [] then 0 else 31 * PolynomialHash(units[..|units| - 1]) + units[|units| - 1]
  }

  /** One round of the loop wraps to the same 32-bit value as the unbounded polynomial step. */
  lemma HashRound(hash: int, p: int, unit: int)
    requires hash == ToInt32(p)
    ensures ToInt32(ShiftLeft5(hash) - hash + unit) == ToInt32(31 * p + unit)
  {
    var s := ShiftLeft5(hash);
    var q1 := (hash * 32 - s) / TwoTo32;
    assert hash * 32 - s == q1 * TwoTo32;
    var q2 := (p - hash) / TwoTo32;
    assert p - hash == q2 * TwoTo32;
    var diff := (31 * p + unit) - (s - hash + unit);
    assert diff == (q1 + 31 * q2) * TwoTo32;
    ModOfShift(0, q1 + 31 * q2);
    ToInt32Congruent(31 * p + unit, s - hash + unit);
  }

  /** The fallback hash loop: fold each code unit in as `(hash << 5) - hash + unit`, keeping
      the result a signed 32-bit integer. It is Java's `String.hashCode`, the polynomial hash
      taken modulo 2^32. */
  method StringHash(s: string) returns (hash: int)
    ensures hash == ToInt32(PolynomialHash(CodeUnits(s)))
    ensures -TwoTo31 <= hash < TwoTo31
  {
    var units := CodeUnits(s);
    hash := 0;
    for i := 0 to |units|
      invariant hash == ToInt32(PolynomialHash(units[..i]))
    {
      HashRound(hash, PolynomialHash(units[..i]), units[i]);
      assert units[..i + 1][..i] == units[..i];
      hash := ShiftLeft5(hash) - hash + units[i];
      hash := ToInt32(hash);
    }
    assert units[..|units|] == units;
  }

  /** The wire's base id: the sanitized id if anything is left, else `wire-` followed by the
      magnitude of the hash of the whole id. */
  function BaseIdOf(wireId: string): (b: string)
  {
    var sanitized := Sanitize(wireId);
    if |sanitized| > 0 then sanitized
    else "wire-" + NatToString(Abs(ToInt32(PolynomialHash(CodeUnits(wireId)))))
  }

  method ComputeBaseId(wireId: string) returns (baseId: string)
    ensures baseId == BaseIdOf(wireId)
  {
    var sanitized := Sanitize(wireId);
    if |sanitized| > 0 {
      return sanitized;
    }
    var hash := StringHash(wireId);
    baseId := "wire-" + NatToString(Abs(hash));
  }

  /** A base id is never empty and is made of id characters only, so it is a usable SVG id. */
  lemma BaseIdWellFormed(wireId: string)
    ensures |BaseIdOf(wireId)| > 0
    ensures AllIdChars(BaseIdOf(wireId))
  {
    var b := BaseIdOf(wireId);
    if |Sanitize(wireId)| == 0 {
      var digits := NatToString(Abs(ToInt32(PolynomialHash(CodeUnits(wireId)))));
      forall i | 0 <= i < |b| ensures IsIdChar(b[i]) {
        if i >= 5 {
          assert b[i] == digits[i - 5];
        }
      }
    }
  }

  /** Ids made of id characters only (as the editor's generated ids are) are their own base
      ids, so distinct such wires get distinct base ids. */
  lemma BaseIdOfPlainId(wireId: string)
    requires |wireId| > 0 && AllIdChars(wireId)
    ensures BaseIdOf(wireId) == wireId
  {
    SanitizeKeepsIdChars(wireId);
  }

  /** Stripping is not injective: two ids differing only in other characters share a base id. */
  lemma BaseIdsCanCollide()
    ensures "a.b" != "ab" && BaseIdOf("a.b") == BaseIdOf("ab")
  {
    assert Sanitize("a.b") == "ab" by {
      assert "a.b"[1..] == ".b";
      assert ".b"[1..] == "b";
    }
    SanitizeKeepsIdChars("ab");
  }

  function GradientId(baseId: string): string { "wire-gradient-" + baseId }

  function InnerGradientId(baseId: string): string { "wire-inner-" + baseId }

  function GlowId(baseId: string): string { "wire-glow-" + baseId }

  /** The three derived ids of one wire differ from each other, and each determines the base id. */
  lemma DerivedIdsDistinct(b: string, c: string)
    ensures GradientId(b) != InnerGradientId(b) && GradientId(b) != GlowId(b) && InnerGradientId(b) != GlowId(b)
    ensures GradientId(b) == GradientId(c) ==> b == c
    ensures InnerGradientId(b) == InnerGradientId(c) ==> b == c
    ensures GlowId(b) == GlowId(c) ==> b == c
  {
    assert GradientId(b)[5] == 'g' && InnerGradientId(b)[5] == 'i' && GlowId(b)[5] == 'g';
    assert GradientId(b)[6] == 'r' && GlowId(b)[6] == 'l';
    if GradientId(b) == GradientId(c) {
      assert b == GradientId(b)[14..];
    }
    if InnerGradientId(b) == InnerGradientId(c) {
      assert b == InnerGradientId(b)[11..];
    }
    if GlowId(b) == GlowId(c) {
      assert b == GlowId(b)[10..];
    }
  }
}
