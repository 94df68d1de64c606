/** Array on top of COWReference, used by one thread: handles on the heap share vectors until one of
    them writes. Every operation is proved to act as if each handle owned its own sequence. */
module CowArray {

  class RefCount {
    var count: nat

    constructor ()
      ensures count == 1
    {
      count := 1;
    }
  }

  /** std::vector. */
  class Vec<T> {
    var data: seq<T>

    constructor (data: seq<T>)
      ensures this.data == data
    {
      this.data := data;
    }
  }

  /** Handles that share a vector share its count, and the count says how many they are. */
  ghost predicate Consistent<T>(pool: set<Array<T>>)
    reads pool, (set a | a in pool :: a.pRefCount)
  {
    && (forall a, b :: a in pool && b in pool ==> (a.pRefCount == b.pRefCount <==> a.pObj == b.pObj))
    && (forall a :: a in pool ==> a.pRefCount.count == |Sharers(pool, a)|)
  }

  ghost function Sharers<T>(pool: set<Array<T>>, a: Array<T>): set<Array<T>>
    reads pool, a
  {
    set b | b in pool && b.pRefCount == a.pRefCount
  }

  class Array<T(==)> {
    var pRefCount: RefCount
    var pObj: Vec<T>

    ghost function Contents(): seq<T>
      reads this, pObj
    {
      pObj.data
    }

    constructor (data: seq<T>)
      ensures fresh(pRefCount) && fresh(pObj)
      ensures pRefCount.count == 1 && Contents() == data
    {
      pRefCount := new RefCount();
      pObj := new Vec(data);
    }

    constructor Copy(ghost pool: set<Array<T>>, other: Array<T>)
      requires other in pool && Consistent(pool)
      modifies other.pRefCount
      ensures Consistent(pool + {this})
      ensures pRefCount == other.pRefCount && pObj == other.pObj
    {
      pRefCount := other.pRefCount;
      pObj := other.pObj;
      new;
      pRefCount.count := pRefCount.count + 1;
      forall a | a in pool ensures Sharers(pool, a) == old(Sharers(pool, a)) {
      }
      SharerJoins(pool, this, other);
    }

    // ----- COWReferenceBase and COWReference -------------------------------------------------

    /** True if this was the only handle; otherwise it leaves its cell for a new one. */
    method BaseGetWriteLock() returns (only: bool)
      requires pRefCount.count >= 1
      modifies this`pRefCount, pRefCount
      ensures only <==> old(pRefCount.count) == 1
      ensures only ==> pRefCount == old(pRefCount) && pRefCount.count == 1
      ensures !only ==> fresh(pRefCount) && pRefCount.count == 1 && old(pRefCount).count == old(pRefCount.count) - 1
    {
      pRefCount.count := pRefCount.count - 1;
      if pRefCount.count == 0 {
        pRefCount.count := pRefCount.count + 1;
        only := true;
      } else {
        pRefCount := new RefCount();
        only := false;
      }
    }

    method GetWriteLock(ghost pool: set<Array<T>>)
      requires this in pool && Consistent(pool)
      modifies this, pRefCount
      ensures Consistent(pool)
      ensures Sharers(pool, this) == {this}
      ensures forall a :: a in pool ==> a.Contents() == old(a.Contents())
      ensures pObj == old(pObj) || fresh(pObj)
      ensures pRefCount == old(pRefCount) || fresh(pRefCount)
    {
      assert this in Sharers(pool, this);
      if pRefCount.count > 1 {
        var tmp := new Vec(pObj.data);
        var only := BaseGetWriteLock();
        if !only {
          pObj := tmp;
        }
        assert Sharers(pool, this) == {this};
        forall a | a in pool && a != this ensures a.pRefCount.count == |Sharers(pool, a)| {
          if a.pRefCount == old(pRefCount) {
            assert Sharers(pool, a) == old(Sharers(pool, this)) - {this};
          } else {
            assert Sharers(pool, a) == old(Sharers(pool, a));
          }
        }
      } else {
        assert |Sharers(pool, this) - {this}| == 0;
      }
    }

    /** decRef in the destructor: the vector goes when the count reaches zero. */
    method Drop(ghost pool: set<Array<T>>)
      requires this in pool && Consistent(pool)
      modifies pRefCount
      ensures Consistent(pool - {this})
      ensures forall a :: a in pool ==> a.Contents() == old(a.Contents())
    {
      assert this in Sharers(pool, this);
      pRefCount.count := pRefCount.count - 1;
      forall a | a in pool && a != this ensures a.pRefCount.count == |Sharers(pool - {this}, a)| {
        assert Sharers(pool - {this}, a) == old(Sharers(pool, a)) - {this};
      }
    }

    method Swap(ghost pool: set<Array<T>>, other: Array<T>)
      requires this in pool && other in pool && Consistent(pool)
      modifies this, other
      ensures Consistent(pool)
      ensures pObj == old(other.pObj) && other.pObj == old(pObj)
      ensures pRefCount == old(other.pRefCount) && other.pRefCount == old(pRefCount)
      ensures forall a :: a in pool && a != this && a != other ==> a.Contents() == old(a.Contents())
    {
      pRefCount, other.pRefCount := other.pRefCount, pRefCount;
      pObj, other.pObj := other.pObj, pObj;
      forall a | a in pool ensures a.pRefCount.count == |Sharers(pool, a)| {
        var name := if a == this then other else if a == other then this else a;
        assert a.pRefCount == old(name.pRefCount);
        ExchangeSize(old(Sharers(pool, name)), Sharers(pool, a), this, other);
      }
    }

    /** COWReference<T>(arg).swap(*this): the temporary takes the old vector away with it. */
    method Assign(ghost pool: set<Array<T>>, other: Array<T>)
      requires this in pool && other in pool && Consistent(pool)
      modifies this, pRefCount, other.pRefCount
      ensures Consistent(pool)
      ensures Contents() == old(other.Contents())
      ensures pObj == old(other.pObj) && pRefCount == old(other.pRefCount)
      ensures forall a :: a in pool && a != this ==> a.Contents() == old(a.Contents())
    {
      var temp := new Array.Copy(pool, other);
      ghost var wider := pool + {temp};
      temp.Swap(wider, this);
      temp.Drop(wider);
      assert wider - {temp} == pool;
    }

    // ----- Array -----------------------------------------------------------------------------

    /** What every mutation promises: this array holds `contents`, no other array changed, and
        nothing outside this array's own storage was touched. */
    twostate predicate Became(pool: set<Array<T>>, contents: seq<T>)
      reads this, pRefCount, pObj, pool, (set a | a in pool :: a.pRefCount), (set a | a in pool :: a.pObj)
    {
      && Consistent(pool)
      && Contents() == contents
      && (forall a :: a in pool && a != this ==>
            a.pObj == old(a.pObj) && a.pRefCount == old(a.pRefCount) && a.Contents() == old(a.Contents()))
      && (pObj == old(pObj) || fresh(pObj))
      && (pRefCount == old(pRefCount) || fresh(pRefCount))
    }

    lemma OnlyThisShares(pool: set<Array<T>>)
      requires this in pool && Consistent(pool) && Sharers(pool, this) == {this}
      ensures forall a :: a in pool && a != this ==> a.pObj != pObj
    {
      forall a | a in pool && a != this ensures a.pObj != pObj {
        assert a !in Sharers(pool, this);
      }
    }

    method PushBack(ghost pool: set<Array<T>>, x: T)
      requires this in pool && Consistent(pool)
      modifies this, pRefCount, pObj
      ensures Became(pool, old(Contents()) + [x])
    {
      GetWriteLock(pool);
      OnlyThisShares(pool);
      pObj.data := pObj.data + [x];
    }

    /** a[n] = x; an index that is out of range throws before anything is copied. */
    method Set(ghost pool: set<Array<T>>, n: nat, x: T) returns (ok: bool)
      requires this in pool && Consistent(pool)
      modifies this, pRefCount, pObj
      ensures ok <==> n < |old(Contents())|
      ensures Became(pool, if ok then old(Contents())[n := x] else old(Contents()))
    {
      if n >= |pObj.data| {
        return false;
      }
      GetWriteLock(pool);
      OnlyThisShares(pool);
      pObj.data := pObj.data[n := x];
      ok := true;
    }

    /** The position is not checked. */
    method Insert(ghost pool: set<Array<T>>, position: nat, x: T)
      requires this in pool && Consistent(pool)
      requires position <= |Contents()|
      modifies this, pRefCount, pObj
      ensures Became(pool, old(Contents())[..position] + [x] + old(Contents())[position..])
    {
      GetWriteLock(pool);
      OnlyThisShares(pool);
      pObj.data := pObj.data[..position] + [x] + pObj.data[position..];
    }

    method Remove(ghost pool: set<Array<T>>, index: nat) returns (ok: bool)
      requires this in pool && Consistent(pool)
      modifies this, pRefCount, pObj
      ensures ok <==> index < |old(Contents())|
      ensures Became(pool, if ok then old(Contents())[..index] + old(Contents())[index + 1..] else old(Contents()))
    {
      if index >= |pObj.data| {
        return false;
      }
      GetWriteLock(pool);
      OnlyThisShares(pool);
      pObj.data := pObj.data[..index] + pObj.data[index + 1..];
      ok := true;
    }

    /** Checks that begin and end - 1 are indices, in unsigned arithmetic: an empty range at 0 or at
        the end is refused. That begin does not pass end is left to the caller. */
    method RemoveRange(ghost pool: set<Array<T>>, begin: nat, end: nat) returns (ok: bool)
      requires this in pool && Consistent(pool)
      requires begin <= end
      modifies this, pRefCount, pObj
      ensures ok <==> begin < |old(Contents())| && 0 < end <= |old(Contents())|
      ensures Became(pool, if ok then old(Contents())[..begin] + old(Contents())[end..] else old(Contents()))
    {
      if begin >= |pObj.data| || end == 0 || end - 1 >= |pObj.data| {
        return false;
      }
      GetWriteLock(pool);
      OnlyThisShares(pool);
      pObj.data := pObj.data[..begin] + pObj.data[end..];
      ok := true;
    }

    method PopBack(ghost pool: set<Array<T>>)
      requires this in pool && Consistent(pool)
      requires Contents() != []
      modifies this, pRefCount, pObj
      ensures Became(pool, old(Contents())[..|old(Contents())| - 1])
    {
      GetWriteLock(pool);
      OnlyThisShares(pool);
      pObj.data := pObj.data[..|pObj.data| - 1];
    }

    method Resize(ghost pool: set<Array<T>>, n: nat, x: T)
      requires this in pool && Consistent(pool)
      modifies this, pRefCount, pObj
      ensures Became(pool, Resized(old(Contents()), n, x))
    {
      GetWriteLock(pool);
      OnlyThisShares(pool);
      pObj.data := Resized(pObj.data, n, x);
    }

    /** insert(end(), x.begin(), x.end()) from another array: end() takes the write lock, so when the
        two share storage this one is on its own copy before the other is read. */
    method AppendArray(ghost pool: set<Array<T>>, x: Array<T>)
      requires this in pool && Consistent(pool)
      requires x in pool && x != this
      modifies this, pRefCount, pObj
      ensures Became(pool, old(Contents()) + old(x.Contents()))
    {
      GetWriteLock(pool);
      OnlyThisShares(pool);
      pObj.data := pObj.data + x.pObj.data;
    }

    /** The whole-array find: the position of the first match, or the size. */
    method Find(x: T) returns (first: nat)
      ensures first <= |Contents()|
      ensures x !in Contents()[..first]
      ensures first < |Contents()| ==> Contents()[first] == x
    {
      first := 0;
      while first != |pObj.data|
        invariant first <= |pObj.data|
        invariant x !in pObj.data[..first]
      {
        if x == pObj.data[first] {
          return;
        }
        assert pObj.data[..first + 1] == pObj.data[..first] + [pObj.data[first]];
        first := first + 1;
      }
    }

    method Contains(x: T) returns (found: bool)
      ensures found <==> x in Contents()
    {
      var i := Find(x);
      found := i != |pObj.data|;
      assert pObj.data[..|pObj.data|] == pObj.data;
    }
  }

  function Resized<T>(s: seq<T>, n: nat, x: T): (r: seq<T>)
    ensures |r| == n
    ensures forall i :: 0 <= i < n ==> r[i] == if i < |s| then s[i] else x
  {
    if n <= |s| then s[..n] else s + seq(n - |s|, _ => x)
  }

  /** An array that shares the storage of another may join the pool once it is counted. */
  lemma SharerJoins<T>(pool: set<Array<T>>, a: Array<T>, other: Array<T>)
    requires a !in pool && other in pool && a.pRefCount == other.pRefCount && a.pObj == other.pObj
    requires forall b, c :: b in pool && c in pool ==> (b.pRefCount == c.pRefCount <==> b.pObj == c.pObj)
    requires forall b :: b in pool ==>
               b.pRefCount.count == |Sharers(pool, b)| + if b.pRefCount == a.pRefCount then 1 else 0
    ensures Consistent(pool + {a})
  {
    forall b | b in pool + {a} ensures b.pRefCount.count == |Sharers(pool + {a}, b)| {
      if b.pRefCount == a.pRefCount {
        assert Sharers(pool + {a}, b) == Sharers(pool, other) + {a};
      } else {
        assert Sharers(pool + {a}, b) == Sharers(pool, b);
      }
    }
  }

  /** An array with storage of its own may join any pool. */
  lemma FreshJoins<T>(pool: set<Array<T>>, a: Array<T>)
    requires Consistent(pool) && a !in pool && a.pRefCount.count == 1
    requires forall b :: b in pool ==> b.pRefCount != a.pRefCount && b.pObj != a.pObj
    ensures Consistent(pool + {a})
  {
    forall b | b in pool + {a} ensures b.pRefCount.count == |Sharers(pool + {a}, b)| {
      if b == a {
        assert Sharers(pool + {a}, b) == {a};
      } else {
        assert Sharers(pool + {a}, b) == Sharers(pool, b);
      }
    }
  }

  /** Exchanging two names in a set does not change its size. */
  lemma ExchangeSize<T>(s: set<T>, s': set<T>, x: T, y: T)
    requires forall z :: z != x && z != y ==> (z in s <==> z in s')
    requires (x in s' <==> y in s) && (y in s' <==> x in s)
    ensures |s| == |s'|
  {
    var rest := s - {x, y};
    assert s == rest + (s * {x, y}) && s' == rest + (s' * {x, y});
    if x in s && y in s {
      assert s * {x, y} == s' * {x, y};
    } else if x in s {
      assert s * {x, y} == {x} && s' * {x, y} == {y};
    } else if y in s {
      assert s * {x, y} == {y} && s' * {x, y} == {x};
    } else {
      assert s * {x, y} == {} && s' * {x, y} == {};
    }
  }
}
