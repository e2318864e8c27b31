/**
 Sanitising the extra claims a namespace's provider returns.  Strings are byte strings: a
 character stands for one byte.
 */
module ClaimsProviding {
  import opened Sequences
  import opened Wrappers

  const MAX_CLAIMS := 16
  const MAX_BYTES := 4096

  const RESERVED := {"sub", "iss", "aud", "iat", "nbf", "exp", "namespace", "custom", "scopes"}

  datatype Json = Str(text: string) | NotAString

  type Object = map<string, Json>

  /** May this key be passed on? */
  predicate Eligible(obj: Object, key: string) {
    key in obj && obj[key].Str? && key !in RESERVED
  }

  /** The nine names a token's own claims go by are not passed on; every other text is. */
  lemma EligibleIff(obj: Object, key: string)
    ensures Eligible(obj, key) <==>
              && key in obj && obj[key].Str?
              && key !in {"sub", "iss", "aud", "iat", "nbf", "exp", "namespace", "custom", "scopes"}
  {
  }

  ghost predicate StrictlySorted(keys: seq<string>) {
    forall i, j :: 0 <= i < j < |keys| ==> LexLe(keys[i], keys[j]) && keys[i] != keys[j]
  }

  /** All eligible keys, in order. */
  ghost predicate IsEligibleList(obj: Object, keys: seq<string>) {
    StrictlySorted(keys) && forall k :: k in keys <==> Eligible(obj, k)
  }

  function TextOf<K>(obj: map<K, Json>, key: K): string {
    if key in obj && obj[key].Str? then obj[key].text else ""
  }

  /** Bytes of the entries under the first `n` keys. */
  function Size(obj: Object, keys: seq<string>, n: nat): nat
    requires n <= |keys|
  {
    if n == 0 then 0 else Size(obj, keys, n - 1) + |keys[n - 1]| + |TextOf(obj, keys[n - 1])|
  }

  /** A prefix of length `n` is within the caps. */
  ghost predicate Fits(obj: Object, keys: seq<string>, n: nat) {
    n <= |keys| && n <= MAX_CLAIMS && Size(obj, keys, n) <= MAX_BYTES
  }

  ghost predicate Longest(obj: Object, keys: seq<string>, n: nat) {
    Fits(obj, keys, n) && !Fits(obj, keys, n + 1)
  }

  /** The entries under the first `n` keys. */
  function Picked<K>(obj: map<K, Json>, keys: seq<K>, n: nat): map<K, string>
    requires n <= |keys|
  {
    if n == 0 then map[] else Picked(obj, keys, n - 1)[keys[n - 1] := TextOf(obj, keys[n - 1])]
  }

  lemma {:induction false} PickedEntries<K>(obj: map<K, Json>, keys: seq<K>, n: nat, k: K)
    requires n <= |keys|
    ensures k in Picked(obj, keys, n) <==> exists i :: 0 <= i < n && keys[i] == k
    ensures k in Picked(obj, keys, n) ==> Picked(obj, keys, n)[k] == TextOf(obj, k)
  {
    if n > 0 {
      PickedEntries(obj, keys, n - 1, k);
    }
  }

  lemma {:induction false} PickedCount<K>(obj: map<K, Json>, keys: seq<K>, n: nat)
    requires n <= |keys| && Distinct(keys)
    ensures |Picked(obj, keys, n)| == n
  {
    if n > 0 {
      PickedCount(obj, keys, n - 1);
      PickedEntries(obj, keys, n - 1, keys[n - 1]);
      assert Picked(obj, keys, n).Keys == Picked(obj, keys, n - 1).Keys + {keys[n - 1]};
    }
  }

  lemma {:induction false} SizeGrows(obj: Object, keys: seq<string>, m: nat, n: nat)
    requires m <= n <= |keys|
    ensures Size(obj, keys, m) <= Size(obj, keys, n)
    decreases n
  {
    if m < n {
      SizeGrows(obj, keys, m, n - 1);
    }
  }

  lemma SortedListUnique(obj: Object, a: seq<string>, b: seq<string>)
    requires IsEligibleList(obj, a) && IsEligibleList(obj, b)
    ensures a == b
  {
    LexIsTotalOrder();
    DistinctBag(a);
    DistinctBag(b);
    assert (set k | k in a) == (set k | k in b);
    SortedIsUnique(LexLe, a, b);
  }

  lemma {:induction false} DistinctBag(s: seq<string>)
    requires StrictlySorted(s)
    ensures multiset(s) == multiset(set k | k in s)
  {
    if s != [] {
      var init, last := s[..|s| - 1], s[|s| - 1];
      DistinctBag(init);
      assert s == init + [last];
      assert last !in init;
      assert (set k | k in s) == (set k | k in init) + {last};
    }
  }

  /** The outcome does not depend on how the object's keys were enumerated: the eligible list
      and the longest prefix within the caps are unique, and every shorter one fits too. */
  lemma TruncationIsCanonical(obj: Object, a: seq<string>, m: nat, b: seq<string>, n: nat)
    requires IsEligibleList(obj, a) && IsEligibleList(obj, b)
    requires Longest(obj, a, m) && Longest(obj, b, n)
    ensures a == b && m == n
    ensures forall k: nat :: Fits(obj, a, k) <==> k <= n
  {
    SortedListUnique(obj, a, b);
    forall k: nat ensures Fits(obj, a, k) <==> k <= n {
      if k <= n {
        SizeGrows(obj, a, k, n);
      } else if k <= |a| {
        SizeGrows(obj, a, n + 1, k);
      }
    }
    assert Fits(obj, a, m) && Fits(obj, a, n);
    assert !Fits(obj, a, m + 1);
  }

  /** The keys in the order the map happens to yield them. */
  method Enumerate(obj: Object) returns (keys: seq<string>)
    ensures (forall k :: k in keys <==> k in obj)
    ensures Distinct(keys)
  {
    keys := [];
    var rest := obj.Keys;
    while rest != {}
      invariant rest <= obj.Keys
      invariant forall k :: k in keys <==> k in obj && k !in rest
      invariant Distinct(keys)
      decreases rest
    {
      var k :| k in rest;
      keys := keys + [k];
      rest := rest - {k};
    }
  }

  /** The eligible keys from position `i` on. */
  function EligibleFrom(obj: Object, keys: seq<string>, i: nat): seq<string>
    requires i <= |keys|
    decreases |keys| - i
  {
    if i == |keys| then []
    else if Eligible(obj, keys[i]) then [keys[i]] + EligibleFrom(obj, keys, i + 1)
    else EligibleFrom(obj, keys, i + 1)
  }

  lemma {:induction false} EligibleFromSorted(obj: Object, keys: seq<string>, i: nat)
    requires StrictlySorted(keys) && i <= |keys|
    ensures StrictlySorted(EligibleFrom(obj, keys, i))
    ensures forall k :: k in EligibleFrom(obj, keys, i) <==> k in keys[i..] && Eligible(obj, k)
    decreases |keys| - i
  {
    if i < |keys| {
      EligibleFromSorted(obj, keys, i + 1);
      assert keys[i..] == [keys[i]] + keys[i + 1..];
      var e := EligibleFrom(obj, keys, i + 1);
      forall j | 0 <= j < |e| ensures LexLe(keys[i], e[j]) && e[j] != keys[i] {
        assert e[j] in keys[i + 1..];
      }
    }
  }

  lemma SortedEnumeration(keys: seq<string>)
    requires Distinct(keys)
    ensures StrictlySorted(Sort(LexLe, keys))
    ensures forall k :: k in Sort(LexLe, keys) <==> k in keys
  {
    LexIsTotalOrder();
    SortSorts(LexLe, keys);
    SortPermutes(LexLe, keys);
    var sorted := Sort(LexLe, keys);
    forall k ensures k in sorted <==> k in keys {
      assert k in multiset(sorted) <==> k in multiset(keys);
    }
    SortKeepsDistinct(LexLe, keys);
  }

  /** The claims kept are those under the longest prefix of the eligible keys within the caps;
      `keys` and `n` name them.  Anything unusable gives no claims at all. */
  method Sanitize(rawLength: nat, parsed: Option<Object>)
    returns (claims: Option<map<string, string>>, ghost keys: seq<string>, ghost n: nat)
    ensures rawLength == 0 || rawLength > 4096 || parsed.None? || parsed.value == map[] ==> claims == None
    ensures 0 < rawLength <= 4096 && parsed.Some? && parsed.value != map[] ==>
              && IsEligibleList(parsed.value, keys) && Longest(parsed.value, keys, n)
              && claims == if n == 0 then None else Some(Picked(parsed.value, keys, n))
    ensures claims.Some? ==> 0 < |claims.value| <= 16
    ensures forall k :: claims.Some? && k in claims.value ==>
              && k in parsed.value && parsed.value[k] == Str(claims.value[k])
              && k !in {"sub", "iss", "aud", "iat", "nbf", "exp", "namespace", "custom", "scopes"}
    ensures forall k, other ::
              claims.Some? && k in claims.value && other !in claims.value && Eligible(parsed.value, other) ==>
                Precedes(k, other)
  {
    keys, n := [], 0;
    if rawLength == 0 || rawLength > MAX_BYTES || parsed.None? || parsed.value == map[] {
      return None, [], 0;
    }
    var obj := parsed.value;
    var enumerated := Enumerate(obj);
    var sorted := Sort(LexLe, enumerated);
    SortedEnumeration(enumerated);
    EligibleFromSorted(obj, sorted, 0);
    assert sorted[0..] == sorted;
    keys := EligibleFrom(obj, sorted, 0);
    var out: map<string, string>;
    out, n := TakeWithinCaps(obj, sorted, keys);
    KeptAreLeast(obj, keys, n);
    claims := if |out| == 0 then None else Some(out);
  }

  /** What is kept is eligible, and precedes every eligible key that is not. */
  lemma KeptAreLeast(obj: Object, keys: seq<string>, n: nat)
    requires IsEligibleList(obj, keys) && n <= |keys|
    ensures forall k :: k in Picked(obj, keys, n) ==> Eligible(obj, k) && obj[k] == Str(Picked(obj, keys, n)[k])
    ensures forall k, other :: k in Picked(obj, keys, n) && other !in Picked(obj, keys, n) && Eligible(obj, other) ==>
              Precedes(k, other)
  {
    var kept := Picked(obj, keys, n);
    forall k | k in kept ensures Eligible(obj, k) && obj[k] == Str(kept[k]) {
      PickedEntries(obj, keys, n, k);
      assert Eligible(obj, k);
    }
    forall k, other | k in kept && other !in kept && Eligible(obj, other) ensures Precedes(k, other) {
      PickedEntries(obj, keys, n, k);
      PickedEntries(obj, keys, n, other);
      var i :| 0 <= i < n && keys[i] == k;
      assert other in keys;
      var j :| 0 <= j < |keys| && keys[j] == other;
      LexIsFirstDifference(keys[i], keys[j]);
    }
  }

  /** The entries under the first `n` keys written one after the other. */
  function Written(obj: Object, keys: seq<string>, n: nat): string
    requires n <= |keys|
  {
    if n == 0 then "" else
    Written(obj, keys, n - 1) + keys[n - 1] + if Eligible(obj, keys[n - 1]) then obj[keys[n - 1]].text else ""
  }

  /** A prefix of the eligible keys fits exactly when it has at most 16 keys, and keys and texts
      together at most 4096 bytes. */
  lemma {:induction false} SizeIsLength(obj: Object, keys: seq<string>, n: nat)
    requires IsEligibleList(obj, keys) && n <= |keys|
    ensures Size(obj, keys, n) == |Written(obj, keys, n)|
    ensures Fits(obj, keys, n) <==> n <= 16 && |Written(obj, keys, n)| <= 4096
  {
    if n > 0 {
      SizeIsLength(obj, keys, n - 1);
      assert keys[n - 1] in keys;
    }
  }

  method TakeWithinCaps(obj: Object, sorted: seq<string>, ghost keys: seq<string>)
    returns (out: map<string, string>, ghost n: nat)
    requires keys == EligibleFrom(obj, sorted, 0) && Distinct(keys)
    ensures Longest(obj, keys, n) && out == Picked(obj, keys, n) && |out| == n
  {
    out, n := map[], 0;
    var total := 0;
    var i := 0;
    while i < |sorted|
      invariant 0 <= i <= |sorted|
      invariant n <= |keys| && keys[n..] == EligibleFrom(obj, sorted, i)
      invariant out == Picked(obj, keys, n) && |out| == n
      invariant total == Size(obj, keys, n) <= MAX_BYTES && n <= MAX_CLAIMS
    {
      if |out| >= MAX_CLAIMS {
        return;
      }
      var k := sorted[i];
      NextKey(obj, sorted, keys, i, n);
      i := i + 1;
      if k in RESERVED || k !in obj || !obj[k].Str? {
        continue;
      }
      total := total + |k| + |obj[k].text|;
      if total > MAX_BYTES {
        return;
      }
      PickedCount(obj, keys, n + 1);
      out := out[k := obj[k].text];
      n := n + 1;
    }
  }

  lemma NextKey(obj: Object, sorted: seq<string>, keys: seq<string>, i: nat, n: nat)
    requires i < |sorted| && n <= |keys| && keys[n..] == EligibleFrom(obj, sorted, i)
    ensures !Eligible(obj, sorted[i]) ==> keys[n..] == EligibleFrom(obj, sorted, i + 1)
    ensures Eligible(obj, sorted[i]) ==>
              n < |keys| && keys[n] == sorted[i] && keys[n + 1..] == EligibleFrom(obj, sorted, i + 1)
  {
  }
}
