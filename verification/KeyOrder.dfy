/**
 The order in which a `BTreeMap<String, _>` gives its keys: by bytes, which for UTF-8 is
 by code points. A merge of whole maps that a limit refuses stops in this order.
 */
module KeyOrder {

  /** Lexicographic, a prefix first. */
  predicate UpTo(a: string, b: string) {
    a == "" || (b != "" && (a[0] < b[0] || (a[0] == b[0] && UpTo(a[1..], b[1..]))))
  }

  lemma {:induction false} UpToIsTotal(a: string, b: string)
    ensures UpTo(a, b) || UpTo(b, a)
  {
    if a != "" && b != "" && a[0] == b[0] {
      UpToIsTotal(a[1..], b[1..]);
    }
  }

  lemma {:induction false} UpToIsTransitive(a: string, b: string, c: string)
    requires UpTo(a, b) && UpTo(b, c)
    ensures UpTo(a, c)
  {
    if a != "" && a[0] == b[0] == c[0] {
      UpToIsTransitive(a[1..], b[1..], c[1..]);
    }
  }

  lemma {:induction false} UpToIsAntisymmetric(a: string, b: string)
    requires UpTo(a, b) && UpTo(b, a)
    ensures a == b
  {
    if a != "" && b != "" {
      UpToIsAntisymmetric(a[1..], b[1..]);
      assert a == [a[0]] + a[1..] && b == [b[0]] + b[1..];
    }
  }

  predicate Least(key: string, keys: set<string>) {
    key in keys && forall k :: k in keys ==> UpTo(key, k)
  }

  lemma {:induction false} SomeKeyIsLeast(keys: set<string>)
    requires keys != {}
    ensures exists key :: Least(key, keys)
    decreases |keys|
  {
    hide UpTo;
    var x :| x in keys;
    UpToIsTotal(x, x);
    var rest := keys - {x};
    if rest == {} {
      assert keys == {x};
      assert Least(x, keys);
    } else {
      SomeKeyIsLeast(rest);
      var y :| Least(y, rest);
      UpToIsTotal(x, y);
      if UpTo(x, y) {
        forall k | k in keys ensures UpTo(x, k) {
          if k != x {
            UpToIsTransitive(x, y, k);
          }
        }
        assert Least(x, keys);
      } else {
        assert Least(y, keys);
      }
    }
  }

  /** The keys, least first. */
  ghost function InOrder(keys: set<string>): (r: seq<string>)
    ensures forall k :: k in r <==> k in keys
    decreases |keys|
  {
    if keys == {} then []
    else
      SomeKeyIsLeast(keys);
      var key :| Least(key, keys);
      [key] + InOrder(keys - {key})
  }

  lemma LeastComesFirst(key: string, keys: set<string>)
    requires Least(key, keys)
    ensures InOrder(keys) == [key] + InOrder(keys - {key})
  {
    hide UpTo;
    forall other | Least(other, keys) ensures other == key {
      UpToIsAntisymmetric(other, key);
    }
  }

  lemma FirstOfAll(key: string, rest: seq<string>, keys: set<string>)
    requires Least(key, keys) && forall k :: k in rest ==> k in keys && k != key
    ensures forall k :: 0 <= k < |rest| ==> UpTo(key, rest[k]) && key != rest[k]
  {
    hide UpTo;
  }

  /** Every key stands after those below it. */
  lemma {:induction false} InOrderAscends(keys: set<string>)
    ensures var r := InOrder(keys); forall j, k :: 0 <= j < k < |r| ==> UpTo(r[j], r[k]) && r[j] != r[k]
    decreases |keys|
  {
    hide UpTo;
    if keys != {} {
      SomeKeyIsLeast(keys);
      var key :| Least(key, keys);
      LeastComesFirst(key, keys);
      InOrderAscends(keys - {key});
      FirstOfAll(key, InOrder(keys - {key}), keys);
    }
  }
}
