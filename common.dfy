/**
 * Shared vocabulary of the model: optional values and results, the random
 * oracle that stands for `Math.random`, and the JavaScript string and
 * sequence operations the services rely on (`trim`, ASCII case mapping,
 * `includes`, `new Set([...])`, `filter`, numeric sums).
 */
module Common {

  datatype Option<T> = None | Some(value: T)

  datatype Result<T, E> = Ok(value: T) | Err(error: E)

  /** A string that may be `undefined`, `null` or present, as request bodies and records carry it. */
  datatype JsStr = Undefined | Null | Str(s: string)
  {
    /** JavaScript truthiness of the value: a present, non-empty string. */
    predicate Truthy()
    {
      Str? && s != ""
    }
  }

  // ---------------------------------------------------------------------------
  // Math.random
  // ---------------------------------------------------------------------------

  /** `Math.random()`: any value in [0, 1); every property is proved for all of them. */
  method Random() returns (r: real)
    ensures 0.0 <= r < 1.0
  {
    r :| 0.0 <= r < 1.0;
  }

  /** `Math.floor(Math.random() * n)`: an index into a collection of size `n`. */
  method RandomIndex(n: nat) returns (k: nat)
    requires n > 0
    ensures k < n
  {
    var r := Random();
    var x := r * n as real;
    assert x < n as real by {
      assert (1.0 - r) * n as real > 0.0;
    }
    k := x.Floor;
  }

  /** A fraction in [0, 1) of a positive amount stays below the amount. */
  lemma FractionBelow(u: real, total: real, x: real)
    requires 0.0 <= u < 1.0 && total > 0.0 && x == u * total
    ensures 0.0 <= x < total
  {
    assert (1.0 - u) * total > 0.0;
  }

  // ---------------------------------------------------------------------------
  // Numbers
  // ---------------------------------------------------------------------------

  function Max(a: real, b: real): real { if a < b then b else a }

  function Abs(a: real): real { if a < 0.0 then -a else a }

  function MaxInt(a: int, b: int): int { if a < b then b else a }

  lemma MulNonNegative(a: real, b: real)
    requires a >= 0.0 && b >= 0.0
    ensures a * b >= 0.0
  {
  }

  /** Dividing both sides of a comparison by a positive factor. */
  lemma BelowByFactor(a: real, b: real, l: real)
    requires l > 0.0 && a * l < b * l
    ensures a < b
  {
    assert (b - a) * l == b * l - a * l;
    assert b - a == ((b - a) * l) / l;
  }

  lemma AtMostByFactor(a: real, b: real, l: real)
    requires l > 0.0 && a * l <= b * l
    ensures a <= b
  {
    assert (b - a) * l == b * l - a * l;
    assert b - a == ((b - a) * l) / l;
  }

  /** A part over its positive whole is a ratio between 0 and 1. */
  lemma RatioInUnit(n: int, c: int)
    requires 0 <= n <= c && c > 0
    ensures 0.0 <= n as real / c as real <= 1.0
    ensures n == 0 ==> n as real / c as real == 0.0
    ensures n == c ==> n as real / c as real == 1.0
  {
    var q := n as real / c as real;
    assert q * c as real == n as real;
    AtMostByFactor(0.0, q, c as real);
    AtMostByFactor(q, 1.0, c as real);
  }

  /** A duration in milliseconds, in hours: `ms / (1000 * 60 * 60)`. */
  function Hours(ms: int): real { ms as real / 3600000.0 }

  /** `Math.ceil` of a real number. */
  function Ceil(x: real): (c: int)
    ensures c as real >= x && (c - 1) as real < x
  {
    -((-x).Floor)
  }

  /** `Math.round` of a real number: halves round towards +infinity. */
  function Round(x: real): (c: int)
    ensures (c as real) - 0.5 <= x < (c as real) + 0.5
  {
    (x + 0.5).Floor
  }

  /** `Math.ceil(total / limit)` for the pagination of list endpoints. */
  function CeilDiv(total: nat, limit: int): (pages: int)
    requires limit > 0
    ensures (pages - 1) * limit < total <= pages * limit
  {
    var q := total / limit;
    var rem := total % limit;
    assert total == q * limit + rem;
    if rem == 0 then
      assert (q - 1) * limit == q * limit - limit;
      q
    else
      assert (q + 1) * limit == q * limit + limit;
      q + 1
  }

  // ---------------------------------------------------------------------------
  // Sequences
  // ---------------------------------------------------------------------------

  /** The elements of `s` in their first-occurrence order: `[...new Set(s)]`. */
  function Dedup<T(==)>(s: seq<T>): (r: seq<T>)
    ensures forall i :: 0 <= i < |r| ==> r[i] in s
    ensures forall i :: 0 <= i < |s| ==> s[i] in r
    ensures forall i, j :: 0 <= i < j < |r| ==> r[i] != r[j]
    ensures |r| <= |s|
  {
    if s == [] then []
    else
      var rest := Dedup(s[..|s| - 1]);
      if s[|s| - 1] in rest then rest else rest + [s[|s| - 1]]
  }

  /** A position at which `x` occurs in `s`. */
  lemma IndexOf<T>(s: seq<T>, x: T) returns (i: nat)
    requires x in s
    ensures i < |s| && s[i] == x
  {
    i :| 0 <= i < |s| && s[i] == x;
  }

  /** An element of a sequence occurs in every permutation of it. */
  lemma SameElement<T>(a: seq<T>, b: seq<T>, i: nat)
    requires multiset(a) == multiset(b) && i < |a|
    ensures exists j :: 0 <= j < |b| && b[j] == a[i]
  {
    assert a[i] in multiset(b);
  }

  /** The number of distinct elements of a sequence: `new Set(s).size`. */
  function CountDistinct<T(==)>(s: seq<T>): nat
  {
    |Dedup(s)|
  }

  lemma {:induction false} DedupOfDistinct<T>(s: seq<T>)
    requires forall i, j :: 0 <= i < j < |s| ==> s[i] != s[j]
    ensures Dedup(s) == s
  {
    if s != [] {
      DedupOfDistinct(s[..|s| - 1]);
    }
  }

  /**
   * `Dedup` keeps first-occurrence order: an element placed before another
   * in the result occurs in `s` before every occurrence of that other one.
   */
  lemma {:induction false} DedupOrder<T>(s: seq<T>)
    ensures forall i, j, q :: 0 <= i < j < |Dedup(s)| && 0 <= q < |s| && s[q] == Dedup(s)[j] ==> Dedup(s)[i] in s[..q]
  {
    if s != [] {
      var init := s[..|s| - 1];
      var x := s[|s| - 1];
      var rest := Dedup(init);
      var r := Dedup(s);
      DedupOrder(init);
      forall i, j, q | 0 <= i < j < |r| && 0 <= q < |s| && s[q] == r[j] ensures r[i] in s[..q] {
        if q < |init| {
          assert s[q] == init[q] && init[..q] == s[..q];
          if x !in rest {
            assert j < |rest| by { assert r[|rest|] == x; assert x !in init; }
          }
          assert r[i] == rest[i] && r[j] == rest[j];
        } else if x in rest {
          var q' := IndexOf(init, x);
          assert init[..q'] == s[..q'] && s[..q'] <= s[..q];
          assert r[i] == rest[i] && r[j] == rest[j];
        } else {
          assert r[i] == rest[i] && s[..q] == init;
        }
      }
    }
  }

  /** Distinct sequences over the same elements have the same length. */
  lemma {:induction false} DistinctSameElementsLength<T>(a: seq<T>, b: seq<T>)
    requires forall i, j :: 0 <= i < j < |a| ==> a[i] != a[j]
    requires forall i, j :: 0 <= i < j < |b| ==> b[i] != b[j]
    requires forall i :: 0 <= i < |a| ==> a[i] in b
    requires forall i :: 0 <= i < |b| ==> b[i] in a
    ensures |a| == |b|
  {
    DistinctCard(a);
    DistinctCard(b);
    assert (set x | x in a) == (set x | x in b);
  }

  lemma {:induction false} DistinctCard<T>(a: seq<T>)
    requires forall i, j :: 0 <= i < j < |a| ==> a[i] != a[j]
    ensures |set x | x in a| == |a|
  {
    if a != [] {
      var init := a[..|a| - 1];
      DistinctCard(init);
      assert (set x | x in a) == (set x | x in init) + {a[|a| - 1]};
      assert a[|a| - 1] !in init;
    }
  }

  // ---------------------------------------------------------------------------
  // Strings
  // ---------------------------------------------------------------------------

  /** The characters JavaScript's `trim` removes and its `\s` class matches. */
  predicate IsJsSpace(c: char)
  {
    ('\U{0009}' <= c <= '\U{000D}') || c == ' ' || c == '\U{00A0}' || c == '\U{1680}' ||
    ('\U{2000}' <= c <= '\U{200A}') || c == '\U{2028}' || c == '\U{2029}' ||
    c == '\U{202F}' || c == '\U{205F}' || c == '\U{3000}' || c == '\U{FEFF}'
  }

  function TrimStart(s: string): (r: string)
    ensures |r| <= |s| && r == s[|s| - |r|..]
    ensures r != [] ==> !IsJsSpace(r[0])
    ensures forall i :: 0 <= i < |s| - |r| ==> IsJsSpace(s[i])
  {
    if s != [] && IsJsSpace(s[0]) then TrimStart(s[1..]) else s
  }

  function TrimEnd(s: string): (r: string)
    ensures |r| <= |s| && r == s[..|r|]
    ensures r != [] ==> !IsJsSpace(r[|r| - 1])
    ensures forall i :: |r| <= i < |s| ==> IsJsSpace(s[i])
  {
    if s != [] && IsJsSpace(s[|s| - 1]) then TrimEnd(s[..|s| - 1]) else s
  }

  /** `String.prototype.trim`. */
  function Trim(s: string): (r: string)
  {
    TrimEnd(TrimStart(s))
  }

  /** A trimmed string is empty exactly when the input is all white space. */
  lemma TrimEmpty(s: string)
    ensures Trim(s) == "" <==> forall i :: 0 <= i < |s| ==> IsJsSpace(s[i])
  {
    var t := TrimStart(s);
    if Trim(s) == "" {
      assert t == [];
    } else {
      var k := |s| - |t|;
      assert t[0] == s[k];
    }
  }

  function ToLowerChar(c: char): char
  {
    if 'A' <= c <= 'Z' then (c as int + 32) as char else c
  }

  function ToUpperChar(c: char): char
  {
    if 'a' <= c <= 'z' then (c as int - 32) as char else c
  }

  /** `toLowerCase`, on the ASCII letters. */
  function ToLower(s: string): (r: string)
    ensures |r| == |s|
    ensures forall i :: 0 <= i < |s| ==> r[i] == ToLowerChar(s[i])
  {
    if s == [] then [] else [ToLowerChar(s[0])] + ToLower(s[1..])
  }

  /** `toUpperCase`, on the ASCII letters. */
  function ToUpper(s: string): (r: string)
    ensures |r| == |s|
    ensures forall i :: 0 <= i < |s| ==> r[i] == ToUpperChar(s[i])
  {
    if s == [] then [] else [ToUpperChar(s[0])] + ToUpper(s[1..])
  }

  /** `String.prototype.includes`: `needle` occurs as a contiguous piece of `hay`. */
  predicate Contains(hay: string, needle: string)
  {
    needle <= hay || (hay != [] && Contains(hay[1..], needle))
  }
}
