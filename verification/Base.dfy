/** Small generic types and facts used throughout the project. */
module Base {

  datatype Option<+T> = None | Some(value: T)

  datatype Result<+T, +E> = Ok(value: T) | Err(error: E)

  function Min(a: int, b: int): (m: int)
    ensures m <= a && m <= b && (m == a || m == b)
  {
    if a < b then a else b
  }

  function Max(a: int, b: int): (m: int)
    ensures a <= m && b <= m && (m == a || m == b)
  {
    if a < b then b else a
  }

  /** A nonempty sequence is its front and its last element. */
  lemma Unsnoc<T>(s: seq<T>) returns (front: seq<T>, last: T)
    requires |s| > 0
    ensures |front| == |s| - 1 && s == front + [last]
  {
    front, last := s[..|s| - 1], s[|s| - 1];
  }

  /** `f` is injective on `keys`, so it maps them to a set of the same size. */
  lemma {:induction false} InjectiveImageSize<K, V>(keys: set<K>, f: map<K, V>, image: set<V>)
    requires keys <= f.Keys
    requires forall a, b :: a in keys && b in keys && f[a] == f[b] ==> a == b
    requires forall v :: v in image <==> exists k :: k in keys && f[k] == v
    ensures |keys| == |image|
  {
    if keys == {} {
      assert image == {};
    } else {
      var k :| k in keys;
      var rest, others := keys - {k}, image - {f[k]};
      ImageShrinks(keys, f, image, k);
      InjectiveImageSize(rest, f, others);
      assert |keys| == |rest| + 1 && |image| == |others| + 1;
    }
  }

  lemma ImageShrinks<K, V>(keys: set<K>, f: map<K, V>, image: set<V>, k: K)
    requires keys <= f.Keys && k in keys
    requires forall a, b :: a in keys && b in keys && f[a] == f[b] ==> a == b
    requires forall v :: v in image <==> exists j :: j in keys && f[j] == v
    ensures f[k] in image
    ensures forall v :: v in image - {f[k]} <==> exists j :: j in keys - {k} && f[j] == v
  {
    forall v ensures v in image - {f[k]} <==> exists j :: j in keys - {k} && f[j] == v {
      if v in image - {f[k]} {
        var j :| j in keys && f[j] == v;
        assert j in keys - {k};
      }
    }
  }
}
