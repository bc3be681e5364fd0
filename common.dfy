/** Shared vocabulary of the backend model: optional values, the Java exception kinds the
    services raise, and the few string operations the services and pages rely on. */
module Common {

  /** A Java reference that may be null, or a JavaScript value that may be missing. */
  datatype Option<+T> = None | Some(value: T)

  /** The exception classes the services throw. Only the class matters to callers
      (ReactionController maps IllegalArgumentException to 400 and everything else to 500);
      the message is kept for the reader. A null dereference is a Runtime error whose message
      is "NullPointerException". */
  datatype Error =
    | IllegalArgument(message: string)
    | Runtime(message: string)
    | Checked(message: string)

  /** A service call that either returns a value or throws. */
  datatype Result<+T> = Ok(value: T) | Err(error: Error)

  /** The prefix every media download URL carries. */
  const MediaPrefix: string := "/api/media/"

  function MediaUrl(mediaId: string): (url: string)
    ensures |url| == |MediaPrefix| + |mediaId|
    ensures url[..|MediaPrefix|] == MediaPrefix && url[|MediaPrefix|..] == mediaId
  {
    MediaPrefix + mediaId
  }

  /** String.startsWith. */
  predicate StartsWith(s: string, prefix: string) {
    |prefix| <= |s| && s[..|prefix|] == prefix
  }

  /** String.endsWith. */
  predicate EndsWith(s: string, suffix: string) {
    |suffix| <= |s| && s[|s| - |suffix|..] == suffix
  }

  /** String.contains. */
  predicate Contains(s: string, part: string)
    decreases |s|
  {
    StartsWith(s, part) || (s != [] && Contains(s[1..], part))
  }

  /** Lower-casing of one character; only the ASCII letters change. */
  function LowerChar(c: char): (d: char)
    ensures 'A' <= c <= 'Z' ==> d as int == c as int + 32
    ensures !('A' <= c <= 'Z') ==> d == c
    ensures !('A' <= d <= 'Z')
  {
    if 'A' <= c <= 'Z' then (c as int + 32) as char else c
  }

  /** String.toLowerCase restricted to ASCII letters. */
  function ToLower(s: string): (r: string)
    ensures |r| == |s|
    ensures forall i :: 0 <= i < |s| ==> r[i] == LowerChar(s[i])
  {
    seq(|s|, i requires 0 <= i < |s| => LowerChar(s[i]))
  }

  /** Lower-casing twice is lower-casing once. */
  lemma ToLowerIdempotent(s: string)
    ensures ToLower(ToLower(s)) == ToLower(s)
  {
    var once := ToLower(s);
    assert forall i :: 0 <= i < |once| ==> LowerChar(once[i]) == once[i];
  }

  /** Two strings that differ only in the case of ASCII letters lower-case alike. */
  predicate SameIgnoringCase(s: string, t: string) {
    ToLower(s) == ToLower(t)
  }

  /** An exact occurrence is still an occurrence once both strings are lower-cased. */
  lemma {:induction false} ContainsLowered(s: string, part: string)
    ensures Contains(s, part) ==> Contains(ToLower(s), ToLower(part))
    decreases |s|
  {
    if StartsWith(s, part) {
      assert ToLower(s)[..|part|] == ToLower(part);
    } else if s != [] {
      ContainsLowered(s[1..], part);
      assert ToLower(s)[1..] == ToLower(s[1..]);
    }
  }

  /** Number of occurrences of x in s. */
  function Occurrences<T(==)>(s: seq<T>, x: T): (n: nat)
    ensures n <= |s|
    ensures n == 0 <==> x !in s
  {
    if s == [] then 0 else (if s[0] == x then 1 else 0) + Occurrences(s[1..], x)
  }

  /** No element appears twice. */
  predicate Distinct<T(==)>(s: seq<T>) {
    forall i, j :: 0 <= i < j < |s| ==> s[i] != s[j]
  }

  /** List.remove(Object): drops the first occurrence of x, if any. */
  function RemoveFirst<T(==,!new)>(s: seq<T>, x: T): (r: seq<T>)
    ensures x !in s ==> r == s
    ensures x in s ==> |r| == |s| - 1
    ensures forall y :: y != x ==> Occurrences(r, y) == Occurrences(s, y)
    ensures x in s ==> Occurrences(r, x) == Occurrences(s, x) - 1
  {
    if s == [] then []
    else if s[0] == x then s[1..]
    else [s[0]] + RemoveFirst(s[1..], x)
  }

  /** An arbitrary key of a non-empty map, fixed once and for all so that proofs can name it. */
  ghost function PickKey(m: map<string, int>): (k: string)
    requires m != map[]
    ensures k in m
  {
    var k :| k in m; k
  }

  /** The sum of all values of a map: `values().stream().mapToInt(...).sum()`. */
  ghost function SumValues(m: map<string, int>): int
    decreases |m|
  {
    if m == map[] then 0
    else
      var k := PickKey(m);
      assert |m - {k}| < |m| by { assert m.Keys - {k} < m.Keys; }
      m[k] + SumValues(m - {k})
  }

  /** The sum does not depend on the key that is taken out first. */
  lemma {:induction false} SumValuesRemove(m: map<string, int>, k: string)
    requires k in m
    ensures SumValues(m) == m[k] + SumValues(m - {k})
    decreases |m|
  {
    var j := PickKey(m);
    if j != k {
      assert m.Keys - {j} < m.Keys;
      assert m.Keys - {k} < m.Keys;
      SumValuesRemove(m - {j}, k);
      SumValuesRemove(m - {k}, j);
      assert m - {j} - {k} == m - {k} - {j};
    }
  }

  /** With no negative value the sum is not negative and bounds every single value. */
  lemma {:induction false} SumValuesBounds(m: map<string, int>)
    ensures (forall k :: k in m ==> m[k] >= 0) ==>
              SumValues(m) >= 0 && forall k :: k in m ==> m[k] <= SumValues(m)
    decreases |m|
  {
    if m != map[] && forall k :: k in m ==> m[k] >= 0 {
      var j := PickKey(m);
      assert m.Keys - {j} < m.Keys;
      SumValuesBounds(m - {j});
      forall k | k in m ensures m[k] <= SumValues(m) {
        SumValuesRemove(m, k);
        assert m.Keys - {k} < m.Keys;
        SumValuesBounds(m - {k});
      }
    }
  }

  /** Changing one entry changes the sum by the difference. */
  lemma SumValuesUpdate(m: map<string, int>, k: string, v: int)
    ensures SumValues(m[k := v]) == SumValues(m) - (if k in m then m[k] else 0) + v
  {
    var m' := m[k := v];
    SumValuesRemove(m', k);
    assert m' - {k} == m - {k};
    if k in m {
      SumValuesRemove(m, k);
    } else {
      assert m - {k} == m;
    }
  }

  /** The sum of the values of m at the listed keys, in list order. */
  function SumAt(keys: seq<string>, m: map<string, int>): int
    requires forall k :: k in keys ==> k in m
  {
    if keys == [] then 0 else m[keys[0]] + SumAt(keys[1..], m)
  }

  /** When the listed keys are exactly the map's keys, each once, the list order sum is the sum. */
  lemma {:induction false} SumValuesAsSumAt(keys: seq<string>, m: map<string, int>)
    requires Distinct(keys)
    requires m.Keys == set k | k in keys
    ensures SumValues(m) == SumAt(keys, m)
  {
    if keys == [] {
      assert m == map[];
    } else {
      SumValuesRemove(m, keys[0]);
      var rest := m - {keys[0]};
      assert rest.Keys == set k | k in keys[1..] by {
        forall k ensures k in rest.Keys <==> k in keys[1..] {
          if k in keys[1..] {
            var i :| 0 <= i < |keys[1..]| && keys[1..][i] == k;
            assert keys[i + 1] == k;
          }
          if k in keys && k != keys[0] {
            var i :| 0 <= i < |keys| && keys[i] == k;
            assert i != 0;
            assert keys[1..][i - 1] == k;
          }
        }
      }
      assert Distinct(keys[1..]) by {
        forall i, j | 0 <= i < j < |keys[1..]| ensures keys[1..][i] != keys[1..][j] {
          assert keys[1..][i] == keys[i + 1] && keys[1..][j] == keys[j + 1];
        }
      }
      SumValuesAsSumAt(keys[1..], rest);
      SumAtFrame(keys[1..], rest, m);
    }
  }

  /** SumAt only reads the listed keys. */
  lemma {:induction false} SumAtFrame(keys: seq<string>, m: map<string, int>, n: map<string, int>)
    requires forall k :: k in keys ==> k in m && k in n && m[k] == n[k]
    ensures SumAt(keys, m) == SumAt(keys, n)
  {
    if keys != [] {
      SumAtFrame(keys[1..], m, n);
    }
  }

  /** A subset is no larger than its superset. */
  lemma {:induction false} SubsetCardinality<T>(a: set<T>, b: set<T>)
    requires a <= b
    ensures |a| <= |b|
    decreases |a|
  {
    if a != {} {
      var x :| x in a;
      SubsetCardinality(a - {x}, b - {x});
    }
  }
}
