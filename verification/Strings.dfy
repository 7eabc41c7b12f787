/**
 The string facts the table rests on: the lexicographic order in which a `std::map`
 iterates, the substring test, and the keys `udid_bundleName`.
 */
module Strings {
  /** `std::string::operator<`. */
  predicate Less(a: string, b: string) {
    if b == [] then false
    else if a == [] then true
    else a[0] < b[0] || (a[0] == b[0] && Less(a[1..], b[1..]))
  }

  lemma {:induction false} LessTrichotomy(a: string, b: string)
    ensures !Less(a, a)
    ensures a == b || Less(a, b) || Less(b, a)
    ensures !(Less(a, b) && Less(b, a))
  {
    if a == [] || b == [] {
      if a != [] {
        LessTrichotomy(a[1..], []);
      }
    } else {
      LessTrichotomy(a[1..], b[1..]);
      if a[0] == b[0] && a[1..] == b[1..] {
        assert a == [a[0]] + a[1..] && b == [b[0]] + b[1..];
      }
    }
  }

  lemma {:induction false} LessTransitive(a: string, b: string, c: string)
    requires Less(a, b) && Less(b, c)
    ensures Less(a, c)
  {
    if a != [] && a[0] == b[0] && b[0] == c[0] {
      LessTransitive(a[1..], b[1..], c[1..]);
    }
  }

  predicate OccursAt(s: string, sub: string, p: nat) {
    p + |sub| <= |s| && s[p..p + |sub|] == sub
  }

  /** `s.find(sub) != npos`. */
  predicate Contains(s: string, sub: string) {
    exists p | 0 <= p <= |s| :: OccursAt(s, sub, p)
  }

  /** A device identifier as the key scheme needs it: non-empty and free of the separator. */
  ghost predicate IsUdid(u: string) {
    u != [] && '_' !in u
  }

  function DeviceAndNameToKey(udid: string, bundleName: string): (key: string)
    ensures |key| == |udid| + 1 + |bundleName| && key[|udid|] == '_'
  {
    udid + "_" + bundleName
  }

  /** Distinct (device, bundle) pairs never share a key. */
  lemma KeyInjective(d: string, n: string, d': string, n': string)
    requires |d| == |d'| || ('_' !in d && '_' !in d')
    ensures DeviceAndNameToKey(d, n) == DeviceAndNameToKey(d', n') <==> d == d' && n == n'
  {
    var k, k' := DeviceAndNameToKey(d, n), DeviceAndNameToKey(d', n');
    if k == k' {
      assert |d| == |d'|;
      assert d == k[..|d|] && d' == k'[..|d'|];
      assert n == k[|d| + 1..] && n' == k'[|d'| + 1..];
    }
  }

  /** Without one of the two conditions keys do collide. */
  lemma KeyCollision()
    ensures DeviceAndNameToKey("a", "b_c") == DeviceAndNameToKey("a_b", "c")
  {
    assert "a" + "_" + "b_c" == "a_b_c" == "a_b" + "_" + "c";
  }

  /**
   The substring search that stands in for an ownership test: among keys of devices with
   identifiers of one length it finds the own keys, and those foreign keys whose bundle
   name happens to contain the identifier.  Both directions.
   */
  lemma OwnershipScan(d: string, n: string, u: string)
    requires IsUdid(u) && |d| == |u|
    ensures Contains(DeviceAndNameToKey(d, n), u) <==> d == u || Contains(n, u)
  {
    var key := DeviceAndNameToKey(d, n);
    if d == u {
      assert OccursAt(key, u, 0);
    }
    if Contains(n, u) {
      var p :| 0 <= p <= |n| && OccursAt(n, u, p);
      assert n == key[|d| + 1..];
      assert OccursAt(key, u, |d| + 1 + p);
    }
    if Contains(key, u) {
      var p :| 0 <= p <= |key| && OccursAt(key, u, p);
      if p == 0 {
        assert d == key[..|d|];
      } else if p <= |d| {
        assert false;
      } else {
        assert n == key[|d| + 1..];
        assert OccursAt(n, u, p - |d| - 1);
      }
    }
  }

  /** The key-prefix query of a synchronisation selects exactly the keys of that device. */
  lemma PrefixSelectsDevice(d: string, n: string, u: string)
    requires |d| == |u|
    ensures u <= DeviceAndNameToKey(d, n) <==> d == u
  {
    assert d == DeviceAndNameToKey(d, n)[..|d|];
  }
}
