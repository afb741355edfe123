/** What several modules share: optional values, and sets taken apart one by one. */
module Common {
  datatype Option<+T> = None | Some(value: T)

  lemma HasMember<K>(keys: set<K>)
    ensures keys != {} ==> exists k :: k in keys
  {
    if forall k :: k !in keys {
      assert keys == {};
    }
  }

  lemma SomeBeyond<K>(a: set<K>, b: set<K>) returns (key: K)
    requires !(a <= b)
    ensures key in a && key !in b
  {
    key :| key in a && key !in b;
  }

  /** Go's map iteration: the keys in some order. */
  method AnyOf<K(==)>(keys: set<K>) returns (key: K)
    requires keys != {}
    ensures key in keys
  {
    HasMember(keys);
    key :| key in keys;
  }

  function Inserted<T>(s: seq<T>, i: nat, x: T): seq<T>
    requires i <= |s|
  {
    s[..i] + [x] + s[i..]
  }

  /** Inserting moves what comes after by one and adds no other member. */
  lemma InsertedAt<T>(s: seq<T>, i: nat, x: T)
    requires i <= |s|
    ensures var t := Inserted(s, i, x);
      && |t| == |s| + 1
      && (forall j :: 0 <= j < |t| ==> t[j] == if j < i then s[j] else if j == i then x else s[j - 1])
      && (forall y :: y in t <==> y in s || y == x)
  {
    var t := Inserted(s, i, x);
    assert t[i] == x;
    forall y | y in s ensures y in t {
      var j :| 0 <= j < |s| && s[j] == y;
      assert t[if j < i then j else j + 1] == y;
    }
  }

  lemma {:induction false} SubsetSize<K>(a: set<K>, b: set<K>)
    requires a <= b
    ensures |a| <= |b|
    ensures |a| == |b| ==> a == b
  {
    assert b == a + (b - a);
  }
}
