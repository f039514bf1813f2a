/** The iteration order of std::map<std::string, T>: keys ascending, character by character. */
module OrderedKeys {

  predicate Less(a: string, b: string)
    decreases |a|
  {
    if b == "" then false
    else if a == "" then true
    else if a[0] != b[0] then a[0] < b[0]
    else Less(a[1..], b[1..])
  }

  /** Up to some place the two agree; there the first has ended, or has the smaller character. */
  predicate LessFrom(a: string, b: string, i: nat) {
    i <= |a| && i < |b| && a[..i] == b[..i] && (i == |a| || a[i] < b[i])
  }

  /** That is the order: a proper prefix comes first, and otherwise the first difference decides. */
  lemma {:induction false} LessExact(a: string, b: string)
    ensures Less(a, b) <==> exists i: nat :: LessFrom(a, b, i)
    decreases |a|
  {
    if a == "" || b == "" || a[0] != b[0] {
      if Less(a, b) {
        assert LessFrom(a, b, 0);
      }
      assert forall i: nat | LessFrom(a, b, i) :: i == 0;
    } else {
      LessExact(a[1..], b[1..]);
      forall i: nat | LessFrom(a[1..], b[1..], i)
        ensures LessFrom(a, b, i + 1)
      {
        assert a[..i + 1] == [a[0]] + a[1..][..i] && b[..i + 1] == [b[0]] + b[1..][..i];
      }
      forall i: nat | LessFrom(a, b, i)
        ensures i > 0 && LessFrom(a[1..], b[1..], i - 1)
      {
        if i > 0 {
          assert a[1..][..i - 1] == a[..i][1..] && b[1..][..i - 1] == b[..i][1..];
        }
      }
      if Less(a, b) {
        var i: nat :| LessFrom(a[1..], b[1..], i);
        assert LessFrom(a, b, i + 1);
      }
    }
  }

  lemma {:induction false} LessTransitive(a: string, b: string, c: string)
    requires Less(a, b) && Less(b, c)
    ensures Less(a, c)
    decreases |a|
  {
    if a != "" && b != "" && c != "" && a[0] == b[0] == c[0] {
      LessTransitive(a[1..], b[1..], c[1..]);
    }
  }

  lemma {:induction false} LessTotal(a: string, b: string)
    ensures (Less(a, b) && !Less(b, a) && a != b) || (Less(b, a) && !Less(a, b) && a != b) || (a == b && !Less(a, b))
    decreases |a|
  {
    if a != "" && b != "" && a[0] == b[0] {
      LessTotal(a[1..], b[1..]);
      assert a == [a[0]] + a[1..] && b == [b[0]] + b[1..];
    }
  }

  predicate IsLeast(k: string, keys: set<string>) {
    k in keys && forall x | x in keys :: x == k || Less(k, x)
  }

  lemma {:induction false} LeastExists(keys: set<string>)
    requires keys != {}
    ensures exists k :: IsLeast(k, keys)
    decreases |keys|
  {
    var y :| y in keys;
    var rest := keys - {y};
    if rest == {} {
      assert forall x | x in keys :: x == y || x in rest;
      assert IsLeast(y, keys);
    } else {
      LeastExists(rest);
      var k :| IsLeast(k, rest);
      LessTotal(y, k);
      if Less(y, k) {
        forall x | x in keys
          ensures x == y || Less(y, x)
        {
          if x != y && x != k {
            LessTransitive(y, k, x);
          }
        }
        assert IsLeast(y, keys);
      } else {
        assert IsLeast(k, keys);
      }
    }
  }

  function Least(keys: set<string>): (k: string)
    requires keys != {}
    ensures IsLeast(k, keys)
  {
    LeastExists(keys);
    assert forall a, b | IsLeast(a, keys) && IsLeast(b, keys) :: a == b by {
      forall a, b | IsLeast(a, keys) && IsLeast(b, keys)
        ensures a == b
      {
        LessTotal(a, b);
      }
    }
    var k :| IsLeast(k, keys);
    k
  }

  predicate Ascending(ks: seq<string>) {
    forall i, j | 0 <= i < j < |ks| :: Less(ks[i], ks[j])
  }

  /** The keys in iteration order. */
  function Ordered(keys: set<string>): (ks: seq<string>)
    ensures forall k :: k in ks <==> k in keys
    decreases |keys|
  {
    if keys == {} then []
    else
      var k := Least(keys);
      [k] + Ordered(keys - {k})
  }

  /** ... each of them exactly once, ascending. */
  lemma {:induction false} OrderedAscends(keys: set<string>)
    ensures Ascending(Ordered(keys))
    decreases |keys|
  {
    if keys != {} {
      var k := Least(keys);
      var rest := Ordered(keys - {k});
      OrderedAscends(keys - {k});
      forall i | 0 <= i < |rest|
        ensures Less(k, rest[i])
      {
        assert rest[i] in rest;
      }
    }
  }

  /** Ascending keys with the same members are the same sequence, so iteration order is a
      function of the set of keys. */
  lemma {:induction false} OrderedUnique(ks: seq<string>, keys: set<string>)
    requires Ascending(ks) && forall k :: k in ks <==> k in keys
    ensures ks == Ordered(keys)
    decreases |ks|
  {
    if ks == [] {
      assert keys == {};
    } else {
      assert ks[0] in keys;
      var k := Least(keys);
      var i :| 0 <= i < |ks| && ks[i] == k;
      LessTotal(ks[0], k);
      forall x
        ensures x in ks[1..] <==> x in keys - {k}
      {
        if x in ks[1..] {
          var j :| 1 <= j < |ks| && ks[j] == x;
          LessTotal(ks[0], x);
        }
      }
      OrderedUnique(ks[1..], keys - {k});
    }
  }
}
