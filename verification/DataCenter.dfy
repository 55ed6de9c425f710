/** Data centres by address prefix: the sorted map of prefixes is probed for the predecessor of ever shorter
    strings, which finds the longest prefix (src/DC.cpp `init`, `getDC`). The key prefixes of a user are probed
    once only (src/Auth.cpp `permission`). */
module DataCenters {
  import opened Bytes

  /** `String::operator<` */
  predicate Less(a: string, b: string) {
    if a == [] || b == [] then a == [] && b != []
    else if a[0] == b[0] then Less(a[1..], b[1..]) else a[0] < b[0]
  }

  predicate AtMost(a: string, b: string) { a == b || Less(a, b) }

  /** `String::commonPrefix` */
  function CommonPrefix(a: string, b: string): (p: string)
    ensures p <= a && p <= b
  {
    if a == [] || b == [] || a[0] != b[0] then [] else [a[0]] + CommonPrefix(a[1..], b[1..])
  }

  lemma {:induction false} CommonIsLongest(a: string, b: string, p: string)
    requires p <= a && p <= b
    ensures p <= CommonPrefix(a, b)
  {
    if p != [] { CommonIsLongest(a[1..], b[1..], p[1..]); }
  }

  // ----- the order -----

  lemma {:induction false} LessTransitive(a: string, b: string, c: string)
    requires Less(a, b) && Less(b, c)
    ensures Less(a, c)
  {
    if a != [] && a[0] == b[0] && b[0] == c[0] { LessTransitive(a[1..], b[1..], c[1..]); }
  }

  lemma {:induction false} LessIsStrict(a: string, b: string)
    ensures !(Less(a, b) && Less(b, a)) && !Less(a, a)
    ensures a != b ==> Less(a, b) || Less(b, a)
  {
    if a != [] && b != [] && a[0] == b[0] {
      LessIsStrict(a[1..], b[1..]);
      assert a[1..] == b[1..] ==> a == [a[0]] + a[1..] == b;
    }
    if a != [] { LessIsStrict(a[1..], a[1..]); }
  }

  lemma {:induction false} PrefixIsAtMost(a: string, b: string)
    requires a <= b
    ensures AtMost(a, b)
  {
    if a != [] {
      PrefixIsAtMost(a[1..], b[1..]);
      assert a == [a[0]] + a[1..] && b == [b[0]] + b[1..];
    }
  }

  /** What lies between a string and an extension of it extends it, too. */
  lemma {:induction false} BetweenExtends(k: string, x: string, p: string)
    requires k <= p && AtMost(k, x) && AtMost(x, p)
    ensures k <= x
  {
    if k != [] {
      assert x != [] && p != [] && k[0] == p[0];
      assert x[0] == k[0];
      assert AtMost(k[1..], x[1..]) && AtMost(x[1..], p[1..]);
      BetweenExtends(k[1..], x[1..], p[1..]);
      assert k == [k[0]] + k[1..] && x == [x[0]] + x[1..];
    }
  }

  // ----- the sorted map -----

  predicate Ascending(keys: seq<string>) {
    forall i, j :: 0 <= i < j < |keys| ==> Less(keys[i], keys[j])
  }

  /** `upper_bound`: the place of the first key that is greater than `p`. */
  function UpperBound(keys: seq<string>, p: string): (n: nat)
    ensures n <= |keys|
  {
    if keys == [] || Less(p, keys[0]) then 0 else 1 + UpperBound(keys[1..], p)
  }

  lemma {:induction false} UpperBoundSplits(keys: seq<string>, p: string, i: nat)
    requires Ascending(keys) && i < |keys|
    ensures AtMost(keys[i], p) <==> i < UpperBound(keys, p)
  {
    LessIsStrict(p, keys[0]);
    LessIsStrict(p, keys[i]);
    if Less(p, keys[0]) {
      if i > 0 { LessTransitive(p, keys[0], keys[i]); }
    } else if i > 0 {
      UpperBoundSplits(keys[1..], p, i - 1);
    }
  }

  /** The key in front of the place is the greatest that is at most `p`. */
  lemma {:induction false} PredecessorIsGreatest(keys: seq<string>, p: string, i: nat)
    requires Ascending(keys) && i < |keys| && AtMost(keys[i], p)
    ensures var n := UpperBound(keys, p); n > 0 && AtMost(keys[n - 1], p) && AtMost(keys[i], keys[n - 1])
  {
    UpperBoundSplits(keys, p, i);
    var n := UpperBound(keys, p);
    UpperBoundSplits(keys, p, n - 1);
  }

  // ----- the longest prefix -----

  /** Key `i` is a prefix of `s`, and no longer key is. */
  predicate IsLongest(keys: seq<string>, s: string, i: nat) {
    && i < |keys| && keys[i] <= s
    && forall j :: 0 <= j < |keys| && keys[j] <= s ==> |keys[j]| <= |keys[i]|
  }

  predicate NoneIsPrefix(keys: seq<string>, s: string) {
    forall j :: 0 <= j < |keys| ==> !(keys[j] <= s)
  }

  /** The search that looks at every key. */
  function Longest(keys: seq<string>, s: string): (r: Option<nat>)
    ensures r == None ==> NoneIsPrefix(keys, s)
    ensures r.Some? ==> IsLongest(keys, s, r.value)
  {
    if keys == [] then None
    else
      var r := Longest(keys[..|keys| - 1], s);
      var last := keys[|keys| - 1];
      if last <= s && (r.Some? ==> |keys[r.value]| < |last|) then Some(|keys| - 1) else r
  }

  lemma {:induction false} LongestIsUnique(keys: seq<string>, s: string, i: nat, j: nat)
    requires Ascending(keys) && IsLongest(keys, s, i) && IsLongest(keys, s, j)
    ensures i == j
  {
    assert keys[i] == s[..|keys[i]|] == keys[j];
    LessIsStrict(keys[i], keys[j]);
  }

  /** The keys that are prefixes of the address are all prefixes of the probe. */
  predicate KeepsPrefixes(keys: seq<string>, s: string, p: string) {
    p <= s && forall i :: 0 <= i < |keys| && keys[i] <= s ==> keys[i] <= p
  }

  lemma {:induction false} NothingAtMost(keys: seq<string>, s: string, p: string)
    requires Ascending(keys) && KeepsPrefixes(keys, s, p) && UpperBound(keys, p) == 0
    ensures NoneIsPrefix(keys, s)
  {
    forall j | 0 <= j < |keys| && keys[j] <= s ensures false {
      PrefixIsAtMost(keys[j], p);
      UpperBoundSplits(keys, p, j);
    }
  }

  lemma {:induction false} PredecessorIsLongest(keys: seq<string>, s: string, p: string)
    requires Ascending(keys) && KeepsPrefixes(keys, s, p) && UpperBound(keys, p) > 0
    requires keys[UpperBound(keys, p) - 1] <= p
    ensures IsLongest(keys, s, UpperBound(keys, p) - 1)
  {
    var n := UpperBound(keys, p);
    forall j | 0 <= j < |keys| && keys[j] <= s ensures |keys[j]| <= |keys[n - 1]| {
      PrefixIsAtMost(keys[j], p);
      PredecessorIsGreatest(keys, p, j);
      BetweenExtends(keys[j], keys[n - 1], p);
    }
  }

  lemma {:induction false} ShorterProbe(keys: seq<string>, s: string, p: string)
    requires Ascending(keys) && KeepsPrefixes(keys, s, p) && UpperBound(keys, p) > 0
    requires !(keys[UpperBound(keys, p) - 1] <= p)
    ensures var q := CommonPrefix(p, keys[UpperBound(keys, p) - 1]);
            |q| < |p| && KeepsPrefixes(keys, s, q)
  {
    var n := UpperBound(keys, p);
    var x := keys[n - 1];
    var q := CommonPrefix(p, x);
    UpperBoundSplits(keys, p, n - 1);
    if |q| == |p| {
      PrefixIsAtMost(p, x);
      LessIsStrict(p, x);
      assert false;
    }
    forall j | 0 <= j < |keys| && keys[j] <= s ensures keys[j] <= q {
      PrefixIsAtMost(keys[j], p);
      PredecessorIsGreatest(keys, p, j);
      BetweenExtends(keys[j], x, p);
      CommonIsLongest(p, x, keys[j]);
    }
  }

  ghost predicate Inserted<T>(s: seq<T>, n: nat, x: T, t: seq<T>) {
    n <= |s| && t == s[..n] + [x] + s[n..]
  }

  class DataCenter {
    /** `mAddrDC`: the prefixes in ascending order, and the data centre of each. */
    var prefixes: seq<string>
    var dcs: seq<nat>

    ghost predicate Valid()
      reads this
    {
      Ascending(prefixes) && |dcs| == |prefixes|
    }

    constructor ()
      ensures Valid() && prefixes == []
    {
      prefixes, dcs := [], [];
    }

    /** `init` for one prefix; a prefix that is there already is an error. */
    method Add(addr: string, dc: nat) returns (ok: bool)
      requires Valid()
      modifies this
      ensures Valid() && ok == (addr !in old(prefixes))
      ensures !ok ==> prefixes == old(prefixes) && dcs == old(dcs)
      ensures ok ==>
                exists n :: Inserted(old(prefixes), n, addr, prefixes) && Inserted(old(dcs), n, dc, dcs)
    {
      if addr in prefixes { return false; }
      var n := UpperBound(prefixes, addr);
      forall i | 0 <= i < |prefixes| ensures Less(prefixes[i], addr) <==> i < n
        ensures Less(addr, prefixes[i]) <==> n <= i
      {
        UpperBoundSplits(prefixes, addr, i);
        LessIsStrict(addr, prefixes[i]);
      }
      prefixes := prefixes[..n] + [addr] + prefixes[n..];
      dcs := dcs[..n] + [dc] + dcs[n..];
      assert Inserted(old(prefixes), n, addr, prefixes) && Inserted(old(dcs), n, dc, dcs);
      ok := true;
    }

    /** `getDC`: the probe gets shorter until its predecessor is a prefix of it. The result is that of the search
        over all prefixes. */
    method GetDC(addr: string) returns (dc: Option<nat>)
      requires Valid()
      ensures dc == if Longest(prefixes, addr).Some? then Some(dcs[Longest(prefixes, addr).value]) else None
    {
      var p := addr;
      while true
        invariant KeepsPrefixes(prefixes, addr, p)
        decreases |p|
      {
        var n := UpperBound(prefixes, p);
        if n == 0 {
          NothingAtMost(prefixes, addr, p);
          return None;
        }
        var x := prefixes[n - 1];
        if x <= p {
          PredecessorIsLongest(prefixes, addr, p);
          if Longest(prefixes, addr).Some? {
            LongestIsUnique(prefixes, addr, n - 1, Longest(prefixes, addr).value);
          }
          return Some(dcs[n - 1]);
        }
        ShorterProbe(prefixes, addr, p);
        p := CommonPrefix(p, x);
      }
    }
  }

  // ----- key prefixes of a user -----

  /** `permission` for a user with key prefixes: the greatest prefix that is at most the key is looked at. */
  function Permission(keys: seq<string>, key: string): bool {
    var n := UpperBound(keys, key);
    n > 0 && keys[n - 1] <= key
  }

  predicate SomeIsPrefix(keys: seq<string>, key: string) {
    exists i :: 0 <= i < |keys| && keys[i] <= key
  }

  /** Something configured sorts behind the longest prefix of the key, but not behind the key. */
  predicate InTheWay(keys: seq<string>, key: string) {
    var r := Longest(keys, key);
    r.Some? && exists i :: 0 <= i < |keys| && Less(keys[r.value], keys[i]) && AtMost(keys[i], key)
  }

  /** The one probe never allows a key without a prefix of it, and it fails to allow one exactly when something
      is in the way. */
  lemma {:induction false} PermissionIsSomePrefix(keys: seq<string>, key: string)
    requires Ascending(keys)
    ensures Permission(keys, key) ==> SomeIsPrefix(keys, key)
    ensures Permission(keys, key) == SomeIsPrefix(keys, key) <==> !InTheWay(keys, key)
  {
    var n, r := UpperBound(keys, key), Longest(keys, key);
    if r.Some? {
      PrefixIsAtMost(keys[r.value], key);
      PredecessorIsGreatest(keys, key, r.value);
      var x := keys[n - 1];
      LessIsStrict(keys[r.value], x);
      if x <= key {
        BetweenExtends(keys[r.value], x, key);
        LongestIsPredecessor(keys, key);
      } else {
        assert Less(keys[r.value], x);
      }
    }
  }

  lemma {:induction false} LongestIsPredecessor(keys: seq<string>, key: string)
    requires Ascending(keys) && UpperBound(keys, key) > 0 && keys[UpperBound(keys, key) - 1] <= key
    ensures Longest(keys, key) == Some(UpperBound(keys, key) - 1) && !InTheWay(keys, key)
  {
    var n, r := UpperBound(keys, key), Longest(keys, key);
    PredecessorIsLongest(keys, key, key);
    LongestIsUnique(keys, key, r.value, n - 1);
    forall i | 0 <= i < |keys| && AtMost(keys[i], key) ensures !Less(keys[n - 1], keys[i]) {
      PredecessorIsGreatest(keys, key, i);
      LessIsStrict(keys[i], keys[n - 1]);
    }
  }

  /** No prefix extends another. */
  predicate PrefixFree(keys: seq<string>) {
    forall i, j :: 0 <= i < |keys| && 0 <= j < |keys| && keys[i] <= keys[j] ==> i == j
  }

  lemma {:induction false} PrefixFreeIsEnough(keys: seq<string>, key: string)
    requires Ascending(keys) && PrefixFree(keys)
    ensures Permission(keys, key) == SomeIsPrefix(keys, key)
  {
    var r := Longest(keys, key);
    if InTheWay(keys, key) {
      var i :| 0 <= i < |keys| && Less(keys[r.value], keys[i]) && AtMost(keys[i], key);
      BetweenExtends(keys[r.value], keys[i], key);
      LessIsStrict(keys[i], keys[i]);
    }
    PermissionIsSomePrefix(keys, key);
  }

  /** With the prefixes "a" and "ab", the key "ac" is refused. */
  lemma {:induction false} RefusedWithAPrefix()
    ensures var keys := ["a", "ab"];
            Ascending(keys) && !Permission(keys, "ac") && SomeIsPrefix(keys, "ac")
  {
    var keys := ["a", "ab"];
    assert keys[0] <= "ac";
    assert Less("a", "ab") && !Less("ac", "a") && !Less("ac", "ab") by {
      assert "a"[1..] == [] && "ab"[1..] == ['b'] && "ac"[1..] == ['c'];
    }
    assert keys[1..] == ["ab"] && ["ab"][1..] == [];
  }
}
