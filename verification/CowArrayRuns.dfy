/** Any program over any number of copy-on-write arrays computes what it computes on plain values. */
module CowArrayRuns {
  import opened CowArray

  datatype Cmd<T> =
    | Create(data: seq<T>)
    | CopyOf(j: nat)
    | Destroy(i: nat)
    | AssignFrom(i: nat, j: nat)
    | Exchange(i: nat, j: nat)
    | Push(i: nat, x: T)
    | SetAt(i: nat, n: nat, x: T)
    | InsertAt(i: nat, position: nat, x: T)
    | RemoveAt(i: nat, n: nat)
    | RemoveSpan(i: nat, begin: nat, end: nat)
    | Pop(i: nat)
    | ResizeTo(i: nat, n: nat, x: T)
    | Append(i: nat, j: nat)

  /** What the operations ask of their callers. */
  predicate Legal<T>(m: seq<seq<T>>, cmd: Cmd<T>) {
    match cmd
    case Create(_) => true
    case CopyOf(j) => j < |m|
    case Destroy(i) => i < |m|
    case AssignFrom(i, j) => i < |m| && j < |m|
    case Exchange(i, j) => i < |m| && j < |m|
    case Push(i, _) => i < |m|
    case SetAt(i, _, _) => i < |m|
    case InsertAt(i, position, _) => i < |m| && position <= |m[i]|
    case RemoveAt(i, _) => i < |m|
    case RemoveSpan(i, begin, end) => i < |m| && begin <= end
    case Pop(i) => i < |m| && m[i] != []
    case ResizeTo(i, _, _) => i < |m|
    case Append(i, j) => i < |m| && j < |m| && i != j
  }

  /** The command on variables that hold plain sequences; refused accesses change nothing. */
  function Apply<T>(m: seq<seq<T>>, cmd: Cmd<T>): seq<seq<T>>
    requires Legal(m, cmd)
  {
    match cmd
    case Create(data) => m + [data]
    case CopyOf(j) => m + [m[j]]
    case Destroy(i) => m[..i] + m[i + 1..]
    case AssignFrom(i, j) => m[i := m[j]]
    case Exchange(i, j) => m[i := m[j]][j := m[i]]
    case Append(i, j) => m[i := Changed(m[i], m[j], cmd)]
    case _ => m[cmd.i := Changed(m[cmd.i], [], cmd)]
  }

  /** The commands that change one array's contents. */
  predicate IsChange<T>(cmd: Cmd<T>) {
    cmd.Push? || cmd.SetAt? || cmd.InsertAt? || cmd.RemoveAt? || cmd.RemoveSpan? || cmd.Pop? || cmd.ResizeTo? ||
    cmd.Append?
  }

  /** What such a command makes of contents s, given the contents t of the array it reads. */
  function Changed<T>(s: seq<T>, t: seq<T>, cmd: Cmd<T>): seq<T>
    requires IsChange(cmd)
    requires cmd.InsertAt? ==> cmd.position <= |s|
    requires cmd.RemoveSpan? ==> cmd.begin <= cmd.end
    requires cmd.Pop? ==> s != []
  {
    match cmd
    case Push(_, x) => s + [x]
    case SetAt(_, n, x) => if n < |s| then s[n := x] else s
    case InsertAt(_, position, x) => s[..position] + [x] + s[position..]
    case RemoveAt(_, n) => if n < |s| then s[..n] + s[n + 1..] else s
    case RemoveSpan(_, begin, end) => if begin < |s| && 0 < end <= |s| then s[..begin] + s[end..] else s
    case Pop(_) => s[..|s| - 1]
    case ResizeTo(_, n, x) => Resized(s, n, x)
    case Append(_, _) => s + t
  }

  lemma ChangesOne<T>(m: seq<seq<T>>, cmd: Cmd<T>, t: seq<T>)
    requires Legal(m, cmd) && IsChange(cmd) && (cmd.Append? ==> t == m[cmd.j])
    ensures Apply(m, cmd) == m[cmd.i := Changed(m[cmd.i], t, cmd)]
  {
  }

  predicate LegalRun<T>(m: seq<seq<T>>, cmds: seq<Cmd<T>>)
    decreases |cmds|
  {
    cmds == [] || (Legal(m, cmds[0]) && LegalRun(Apply(m, cmds[0]), cmds[1..]))
  }

  function ApplyAll<T>(m: seq<seq<T>>, cmds: seq<Cmd<T>>): seq<seq<T>>
    requires LegalRun(m, cmds)
    decreases |cmds|
  {
    if cmds == [] then m else ApplyAll(Apply(m, cmds[0]), cmds[1..])
  }

  method ChangeArray<T(==)>(a: Array<T>, ghost pool: set<Array<T>>, cmd: Cmd<T>, source: Array<T>)
    requires a in pool && source in pool && Consistent(pool) && IsChange(cmd)
    requires cmd.Append? ==> source != a
    requires cmd.InsertAt? ==> cmd.position <= |a.Contents()|
    requires cmd.RemoveSpan? ==> cmd.begin <= cmd.end
    requires cmd.Pop? ==> a.Contents() != []
    modifies a, a.pRefCount, a.pObj
    ensures a.Became(pool, Changed(old(a.Contents()), old(source.Contents()), cmd))
  {
    match cmd {
      case Push(_, x) => a.PushBack(pool, x); return;
      case SetAt(_, n, x) => var _ := a.Set(pool, n, x); return;
      case InsertAt(_, position, x) => a.Insert(pool, position, x); return;
      case RemoveAt(_, n) => var _ := a.Remove(pool, n); return;
      case RemoveSpan(_, begin, end) => var _ := a.RemoveRange(pool, begin, end); return;
      case Pop(_) => a.PopBack(pool); return;
      case ResizeTo(_, n, x) => a.Resize(pool, n, x); return;
      case Append(_, _) => a.AppendArray(pool, source); return;
    }
  }

  ghost function Members<T>(arrays: seq<Array<T>>): set<Array<T>> {
    set a | a in arrays
  }

  class Client<T(==)> {
    var arrays: seq<Array<T>>

    ghost function Pool(): set<Array<T>>
      reads this
    {
      Members(arrays)
    }

    ghost function Footprint(): set<object>
      reads this, Pool()
    {
      (set a: Array<T> | a in Pool() :: a)
      + (set a: Array<T> | a in Pool() :: a.pRefCount)
      + (set a: Array<T> | a in Pool() :: a.pObj)
    }

    ghost predicate Distinct()
      reads this
    {
      forall i, j :: 0 <= i < j < |arrays| ==> arrays[i] != arrays[j]
    }

    ghost predicate Valid()
      reads this, Footprint()
    {
      Distinct() && Consistent(Pool())
    }

    /** The arrays show exactly these values. */
    ghost predicate Shows(m: seq<seq<T>>)
      reads this, Footprint()
    {
      |m| == |arrays| && forall i :: 0 <= i < |m| ==> arrays[i].Contents() == m[i]
    }

    constructor ()
      ensures Valid() && Shows([]) && fresh(Footprint())
    {
      arrays := [];
    }

    method Change(cmd: Cmd<T>, ghost m: seq<seq<T>>)
      requires Valid() && Shows(m) && Legal(m, cmd) && IsChange(cmd)
      modifies Footprint()
      ensures arrays == old(arrays)
      ensures Valid() && Shows(Apply(m, cmd))
      ensures fresh(Footprint() - old(Footprint()))
    {
      var a := arrays[cmd.i];
      var source := if cmd.Append? then arrays[cmd.j] else a;
      ChangesOne(m, cmd, source.Contents());
      ChangeArray(a, Pool(), cmd, source);
    }

    lemma PoolWithout(i: nat)
      requires i < |arrays| && Distinct()
      ensures Members(arrays[..i] + arrays[i + 1..]) == Pool() - {arrays[i]}
    {
      var rest := arrays[..i] + arrays[i + 1..];
      forall a ensures a in rest <==> a in Pool() - {arrays[i]} {
        if a in Pool() - {arrays[i]} {
          var k :| 0 <= k < |arrays| && arrays[k] == a;
          assert k < i ==> rest[k] == a;
          assert k > i ==> rest[k - 1] == a;
        }
      }
    }

    method Add(a: Array<T>, ghost m: seq<seq<T>>)
      requires Distinct() && Shows(m) && a !in Pool() && Consistent(Pool() + {a})
      modifies this
      ensures Valid() && Shows(m + [a.Contents()])
      ensures Footprint() <= old(Footprint()) + {a, a.pRefCount, a.pObj}
    {
      arrays := arrays + [a];
      assert Pool() == old(Pool()) + {a};
    }

    method Make(data: seq<T>, ghost m: seq<seq<T>>)
      requires Valid() && Shows(m)
      modifies this
      ensures Valid() && Shows(m + [data])
      ensures fresh(Footprint() - old(Footprint()))
    {
      var a := new Array(data);
      FreshJoins(Pool(), a);
      Add(a, m);
    }

    method Share(j: nat, ghost m: seq<seq<T>>)
      requires Valid() && Shows(m) && j < |m|
      modifies this, Footprint()
      ensures Valid() && Shows(m + [m[j]])
      ensures fresh(Footprint() - old(Footprint()))
    {
      ghost var pool, before := Pool(), Footprint();
      var a := new Array.Copy(Pool(), arrays[j]);
      assert Footprint() == before && a !in pool;
      assert Shows(m);
      Add(a, m);
      assert a.pRefCount in before && a.pObj in before;
    }

    method Remove(i: nat, ghost m: seq<seq<T>>)
      requires Valid() && Shows(m) && i < |m|
      modifies this, Footprint()
      ensures Valid() && Shows(m[..i] + m[i + 1..])
      ensures fresh(Footprint() - old(Footprint()))
    {
      PoolWithout(i);
      arrays[i].Drop(Pool());
      assert Shows(m);
      Forget(i, m);
    }

    method Forget(i: nat, ghost m: seq<seq<T>>)
      requires Distinct() && Shows(m) && i < |m| && Consistent(Pool() - {arrays[i]})
      modifies this
      ensures Valid() && Shows(m[..i] + m[i + 1..])
      ensures Footprint() <= old(Footprint())
    {
      PoolWithout(i);
      arrays := arrays[..i] + arrays[i + 1..];
    }

    method Reassign(i: nat, j: nat, ghost m: seq<seq<T>>)
      requires Valid() && Shows(m) && i < |m| && j < |m|
      modifies Footprint()
      ensures arrays == old(arrays)
      ensures Valid() && Shows(m[i := m[j]])
      ensures fresh(Footprint() - old(Footprint()))
    {
      arrays[i].Assign(Pool(), arrays[j]);
    }

    method Exchange(i: nat, j: nat, ghost m: seq<seq<T>>)
      requires Valid() && Shows(m) && i < |m| && j < |m|
      modifies Footprint()
      ensures arrays == old(arrays)
      ensures Valid() && Shows(m[i := m[j]][j := m[i]])
      ensures fresh(Footprint() - old(Footprint()))
    {
      arrays[i].Swap(Pool(), arrays[j]);
    }

    /** One command does to the shared storage what it would do to plain values. */
    method Do(cmd: Cmd<T>, ghost m: seq<seq<T>>)
      requires Valid() && Shows(m) && Legal(m, cmd)
      modifies this, Footprint()
      ensures Valid() && Shows(Apply(m, cmd))
      ensures fresh(Footprint() - old(Footprint()))
    {
      match cmd {
        case Create(data) => Make(data, m);
        case CopyOf(j) => Share(j, m);
        case Destroy(i) => Remove(i, m);
        case AssignFrom(i, j) => Reassign(i, j, m);
        case Exchange(i, j) => Exchange(i, j, m);
        case _ => Change(cmd, m);
      }
    }

    /** A whole program. */
    method Run(cmds: seq<Cmd<T>>, ghost m: seq<seq<T>>)
      requires Valid() && Shows(m) && LegalRun(m, cmds)
      modifies this, Footprint()
      ensures Valid() && Shows(ApplyAll(m, cmds))
    {
      ghost var now := m;
      for k := 0 to |cmds|
        invariant Valid() && Shows(now)
        invariant fresh(Footprint() - old(Footprint()))
        invariant LegalRun(now, cmds[k..]) && ApplyAll(now, cmds[k..]) == ApplyAll(m, cmds)
      {
        assert cmds[k..][0] == cmds[k] && cmds[k..][1..] == cmds[k + 1..];
        Do(cmds[k], now);
        now := Apply(now, cmds[k]);
      }
    }
  }
}
