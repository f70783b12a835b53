/** Result and option types shared by every component, and the engine's error conditions. */
module Prelude {

  datatype Option<+T> = None | Some(value: T) {
    function ToResult(error: Error): Result<T> {
      match this
      case None => Err(error)
      case Some(v) => Ok(v)
    }
  }

  /** The ways an engine operation can fail. */
  datatype Error =
    | RootPath           // the operation does not apply to the root directory
    | Dangling           // an inode id with no inode
    | NoSuchComponent    // a path component is missing
    | NotADirectory      // a path continues below a file
    | TraversesFile      // a rebuild meets a file where a directory is needed
    | NoSuchEntry        // the entry to remove is missing
    | IsADirectory       // file contents asked of a directory
    | NoSuchSnapshot
    | BlockNotFound      // no index entry for a hash
    | ShortRead          // a record reaches past the end of the log
    | IntegrityFailure   // the bytes read do not hash to their address

  datatype Result<+T> = Ok(value: T) | Err(error: Error)
}

/** Sums over finite sets of keys, in any order. */
module Sums {

  ghost function Total<K(!new)>(m: map<K, nat>, s: set<K>): nat
    requires s <= m.Keys
  {
    if s == {} then 0 else
      var k :| k in s;
      m[k] + Total(m, s - {k})
  }

  /** The sum does not depend on the order in which keys are picked. */
  lemma {:induction false} TotalSplit<K(!new)>(m: map<K, nat>, s: set<K>, k: K)
    requires s <= m.Keys && k in s
    ensures Total(m, s) == m[k] + Total(m, s - {k})
    decreases s
  {
    var pick :| pick in s && Total(m, s) == m[pick] + Total(m, s - {pick});
    if pick != k {
      TotalSplit(m, s - {pick}, k);
      TotalSplit(m, s - {k}, pick);
      assert s - {pick} - {k} == s - {k} - {pick};
    }
  }

  lemma TotalAdd<K(!new)>(m: map<K, nat>, s: set<K>, k: K)
    requires s <= m.Keys && k in m && k !in s
    ensures Total(m, s + {k}) == m[k] + Total(m, s)
  {
    TotalSplit(m, s + {k}, k);
    assert s + {k} - {k} == s;
  }

  lemma {:induction false} TotalUnion<K(!new)>(m: map<K, nat>, a: set<K>, b: set<K>)
    requires a <= m.Keys && b <= m.Keys && a !! b
    ensures Total(m, a + b) == Total(m, a) + Total(m, b)
    decreases b
  {
    if b == {} {
      assert a + b == a;
    } else {
      var k :| k in b;
      TotalUnion(m, a, b - {k});
      TotalSplit(m, b, k);
      TotalAdd(m, a + (b - {k}), k);
      assert a + b == a + (b - {k}) + {k};
    }
  }

  lemma TotalMonotone<K(!new)>(m: map<K, nat>, a: set<K>, b: set<K>)
    requires a <= b <= m.Keys
    ensures Total(m, a) <= Total(m, b)
  {
    TotalUnion(m, a, b - a);
    assert a + (b - a) == b;
  }

  lemma {:induction false} TotalAgree<K(!new)>(m: map<K, nat>, m': map<K, nat>, s: set<K>)
    requires s <= m.Keys && s <= m'.Keys
    requires forall k | k in s :: m[k] == m'[k]
    ensures Total(m, s) == Total(m', s)
    decreases s
  {
    if s != {} {
      var k :| k in s;
      TotalSplit(m, s, k);
      TotalSplit(m', s, k);
      TotalAgree(m, m', s - {k});
    }
  }
}
