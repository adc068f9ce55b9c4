/**
 This module models the part of PHP's ordered array that the request
 parameter container relies on: keyed lookup, `$t[$k] = $v`, the `isset`
 read used by the getters, and `array_merge`.

 A PHP array is an ordered table of entries with pairwise distinct keys; it
 is modelled as a sequence of (key, value) pairs in insertion order.
 */
module PhpArray {

  datatype Option<+T> = None | Some(value: T)

  /** A PHP array key after PHP's own key normalisation: an integer or a string. */
  datatype Key = IntKey(i: int) | StrKey(s: string)

  /** The values a parameter may hold (PHP is dynamically typed). */
  datatype Value =
    | Null
    | Bool(b: bool)
    | Int(i: int)
    | Str(s: string)
    | Arr(entries: seq<(Key, Value)>)

  /** An ordered PHP array: entries in insertion order. */
  type Table = seq<(Key, Value)>

  predicate HasKey(t: Table, k: Key)
  {
    exists i :: 0 <= i < |t| && t[i].0 == k
  }

  /** Every PHP array has pairwise distinct keys. */
  predicate Distinct(t: Table)
  {
    forall i, j :: 0 <= i < j < |t| ==> t[i].0 != t[j].0
  }

  /** The keys of a table, in order. */
  function Keys(t: Table): (r: seq<Key>)
    ensures |r| == |t|
    ensures forall i :: 0 <= i < |t| ==> r[i] == t[i].0
  {
    if t == [] then [] else [t[0].0] + Keys(t[1..])
  }

  /** The values of a table, in order. */
  function Values(t: Table): (r: seq<Value>)
    ensures |r| == |t|
    ensures forall i :: 0 <= i < |t| ==> r[i] == t[i].1
  {
    if t == [] then [] else [t[0].1] + Values(t[1..])
  }

  /** The raw entry lookup `$t[$k]`: the value stored under `k`, if any. */
  function Find(t: Table, k: Key): (r: Option<Value>)
    ensures r.Some? <==> HasKey(t, k)
    ensures r.Some? ==> (k, r.value) in t
  {
    if t == [] then None
    else if t[0].0 == k then Some(t[0].1)
    else
      assert HasKey(t, k) ==> HasKey(t[1..], k) by {
        if HasKey(t, k) {
          var i :| 0 <= i < |t| && t[i].0 == k;
          assert t[1..][i - 1].0 == k;
        }
      }
      Find(t[1..], k)
  }

  /**
   `isset($t[$k])`: the key is present and its value is not null. In an array
   with distinct keys this is the same as some entry holding a non-null value
   under the key.
   */
  predicate IsSet(t: Table, k: Key): (b: bool)
    ensures b ==> HasKey(t, k)
    ensures Distinct(t) ==> (b <==> exists i :: 0 <= i < |t| && t[i].0 == k && !t[i].1.Null?)
  {
    FindDistinct(t, k);
    Find(t, k).Some? && !Find(t, k).value.Null?
  }

  /** In an array with distinct keys, the raw read returns the value of the one entry with the key. */
  lemma FindDistinct(t: Table, k: Key)
    ensures Distinct(t) ==> forall i :: 0 <= i < |t| && t[i].0 == k ==> Find(t, k) == Some(t[i].1)
  {
    if Distinct(t) {
      forall i | 0 <= i < |t| && t[i].0 == k
        ensures Find(t, k) == Some(t[i].1)
      {
        var j :| 0 <= j < |t| && t[j] == (k, Find(t, k).value);
        assert i == j;
      }
    }
  }

  /**
   The getters' read `isset($t[$k]) ? $t[$k] : null`: the stored value when it
   is set, null otherwise. A key stored with a null value therefore reads the
   same as a missing key.
   */
  function Lookup(t: Table, k: Key): (r: Value)
    ensures HasKey(t, k) ==> (k, r) in t
    ensures !HasKey(t, k) ==> r == Null
    ensures !r.Null? <==> IsSet(t, k)
  {
    if IsSet(t, k) then Find(t, k).value else Null
  }

  /**
   The assignment `$t[$k] = $v`: an existing key keeps its position and gets
   the new value; a new key is appended at the end.
   */
  function Assign(t: Table, k: Key, v: Value): (r: Table)
    ensures r != []
  {
    if t == [] then [(k, v)]
    else if t[0].0 == k then [(k, v)] + t[1..]
    else [t[0]] + Assign(t[1..], k, v)
  }

  /** The integer-keyed entries of a table, in order. */
  function IntEntries(t: Table): (r: Table)
    ensures |r| <= |t|
    ensures forall i :: 0 <= i < |r| ==> r[i].0.IntKey?
  {
    if t == [] then []
    else if t[0].0.IntKey? then [t[0]] + IntEntries(t[1..])
    else IntEntries(t[1..])
  }

  /** The integer keys of `e` are n, n + 1, n + 2, ... in order. */
  predicate DenseFrom(e: Table, n: int)
  {
    forall j :: 0 <= j < |e| ==> e[j].0 == IntKey(n + j)
  }

  /** The integer keys of `t`, in order, are exactly 0, 1, 2, ... */
  predicate Dense(t: Table)
  {
    DenseFrom(IntEntries(t), 0)
  }

  /**
   One step of `array_merge`: an integer key is renumbered to the next free
   index of the result (which, because the result's integer keys are dense,
   is the number of integer keys it already holds); a string key is assigned,
   overwriting an earlier value in place.
   */
  function Put(acc: Table, e: (Key, Value)): (r: Table)
    ensures e.0.StrKey? ==> Find(r, e.0) == Some(e.1)
    ensures Keys(r) == if e.0.IntKey? then Keys(acc) + [IntKey(|IntEntries(acc)|)]
                       else if HasKey(acc, e.0) then Keys(acc) else Keys(acc) + [e.0]
  {
    if e.0.IntKey? then
      var x := (IntKey(|IntEntries(acc)|), e.1);
      assert Keys(acc + [x]) == Keys(acc) + [x.0];
      acc + [x]
    else
      FindAssign(acc, e.0, e.1, e.0);
      AssignKeys(acc, e.0, e.1);
      Assign(acc, e.0, e.1)
  }

  /**
   Applies `Put` to every entry of `src`, left to right. The entries already
   in `acc` keep their keys and their places.
   */
  function Fold(acc: Table, src: Table): (r: Table)
    ensures |acc| <= |r| && Keys(r)[..|acc|] == Keys(acc)
    decreases |src|
  {
    if src == [] then acc
    else
      var acc' := Put(acc, src[0]);
      var r := Fold(acc', src[1..]);
      PrefixTrans(Keys(acc), Keys(acc'), Keys(r));
      r
  }

  /** A prefix of a prefix is a prefix. */
  lemma PrefixTrans(x: seq<Key>, y: seq<Key>, z: seq<Key>)
    requires |x| <= |y| <= |z| && y[..|x|] == x && z[..|y|] == y
    ensures z[..|x|] == x
  {
    assert z[..|x|] == z[..|y|][..|x|];
  }

  /**
   `array_merge($a, $b)`: both arrays are copied, in order, into a fresh one.
   The result is a PHP array whose integer keys are 0, 1, 2, ... in order.
   */
  function Merge(a: Table, b: Table): (r: Table)
    ensures Distinct(r) && Dense(r)
  {
    assert MergeInv([]);
    FoldInv([], a);
    FoldInv(Fold([], a), b);
    Fold(Fold([], a), b)
  }

  // ---------------------------------------------------------------------
  // Lookup and assignment
  // ---------------------------------------------------------------------

  /** Looking up a key in a concatenation finds the first table's entry first. */
  lemma {:induction false} FindAppend(a: Table, b: Table, k: Key)
    ensures Find(a + b, k) == if HasKey(a, k) then Find(a, k) else Find(b, k)
  {
    if a != [] {
      assert (a + b)[1..] == a[1..] + b;
      if a[0].0 != k {
        FindAppend(a[1..], b, k);
      }
    } else {
      assert a + b == b;
    }
  }

  /** Read-your-write: after `$t[$k] = $v`, `$t[$k]` is `$v`; every other key reads as before. */
  lemma {:induction false} FindAssign(t: Table, k: Key, v: Value, k': Key)
    ensures Find(Assign(t, k, v), k') == if k' == k then Some(v) else Find(t, k')
  {
    if t != [] && t[0].0 != k {
      FindAssign(t[1..], k, v, k');
    }
  }

  /** `$t[$k] = $v` either keeps the key order (overwrite) or appends `k` at the end. */
  lemma {:induction false} AssignKeys(t: Table, k: Key, v: Value)
    ensures Keys(Assign(t, k, v)) == if HasKey(t, k) then Keys(t) else Keys(t) + [k]
  {
    if t != [] {
      if t[0].0 == k {
        assert HasKey(t, k);
      } else {
        assert HasKey(t, k) <==> HasKey(t[1..], k) by {
          if HasKey(t, k) {
            var i :| 0 <= i < |t| && t[i].0 == k;
            assert t[1..][i - 1].0 == k;
          }
          if HasKey(t[1..], k) {
            var i :| 0 <= i < |t[1..]| && t[1..][i].0 == k;
            assert t[i + 1].0 == k;
          }
        }
        AssignKeys(t[1..], k, v);
      }
    }
  }

  /** Assignment keeps the keys of a table distinct. */
  lemma AssignDistinct(t: Table, k: Key, v: Value)
    requires Distinct(t)
    ensures Distinct(Assign(t, k, v))
  {
    var r := Assign(t, k, v);
    AssignKeys(t, k, v);
    assert Keys(r) == if HasKey(t, k) then Keys(t) else Keys(t) + [k];
    forall i, j | 0 <= i < j < |r| ensures r[i].0 != r[j].0 {
      assert Keys(r)[i] == r[i].0 && Keys(r)[j] == r[j].0;
    }
  }

  /** The getters read back what was just stored, a stored null included. */
  lemma {:induction false} LookupAssign(t: Table, k: Key, v: Value, k': Key)
    ensures Lookup(Assign(t, k, v), k') == if k' == k then v else Lookup(t, k')
  {
    FindAssign(t, k, v, k');
  }

  /**
   A key stored with a null value makes the table non-empty, yet reads as
   null, exactly like a key that was never stored.
   */
  lemma StoredNullReadsAsAbsent(t: Table, k: Key)
    ensures Assign(t, k, Null) != []
    ensures HasKey(Assign(t, k, Null), k)
    ensures Lookup(Assign(t, k, Null), k) == Null
  {
    FindAssign(t, k, Null, k);
  }

  /** In a table with distinct keys the getters' read returns the stored value of every entry. */
  lemma LookupAt(t: Table, i: int)
    requires Distinct(t) && 0 <= i < |t|
    ensures Lookup(t, t[i].0) == t[i].1
  {
  }

  // ---------------------------------------------------------------------
  // array_merge
  // ---------------------------------------------------------------------

  lemma {:induction false} IntEntriesAppend(a: Table, b: Table)
    ensures IntEntries(a + b) == IntEntries(a) + IntEntries(b)
  {
    if a == [] {
      assert a + b == b;
    } else {
      assert (a + b)[1..] == a[1..] + b;
      IntEntriesAppend(a[1..], b);
    }
  }

  lemma {:induction false} ValuesAppend(a: Table, b: Table)
    ensures Values(a + b) == Values(a) + Values(b)
  {
    if a == [] {
      assert a + b == b;
    } else {
      assert (a + b)[1..] == a[1..] + b;
      ValuesAppend(a[1..], b);
    }
  }

  /** Assigning under a string key leaves the integer-keyed entries alone. */
  lemma {:induction false} IntEntriesAssignStr(t: Table, k: Key, v: Value)
    requires k.StrKey?
    ensures IntEntries(Assign(t, k, v)) == IntEntries(t)
  {
    if t != [] && t[0].0 != k {
      IntEntriesAssignStr(t[1..], k, v);
    }
  }

  /** An integer key is found among the integer-keyed entries or nowhere. */
  lemma {:induction false} FindIntKey(t: Table, m: int)
    ensures Find(t, IntKey(m)) == Find(IntEntries(t), IntKey(m))
  {
    if t != [] {
      FindIntKey(t[1..], m);
    }
  }

  /** In dense entries numbered from n, key m sits at position m - n. */
  lemma {:induction false} FindDense(e: Table, n: int, m: int)
    requires DenseFrom(e, n)
    ensures Find(e, IntKey(m)) == if n <= m < n + |e| then Some(e[m - n].1) else None
  {
    if e != [] {
      assert DenseFrom(e[1..], n + 1) by {
        forall j | 0 <= j < |e[1..]| ensures e[1..][j].0 == IntKey(n + 1 + j) {
          assert e[1..][j] == e[j + 1];
        }
      }
      FindDense(e[1..], n + 1, m);
      if m != n {
        assert n + 1 <= m < n + |e| ==> e[1..][m - (n + 1)] == e[m - n];
      }
    }
  }

  /** The invariant `array_merge` keeps while it copies: distinct keys, dense integer keys. */
  predicate MergeInv(t: Table)
  {
    Distinct(t) && Dense(t)
  }

  lemma PutInv(acc: Table, e: (Key, Value))
    requires MergeInv(acc)
    ensures MergeInv(Put(acc, e))
    ensures Values(IntEntries(Put(acc, e))) == Values(IntEntries(acc)) + Values(IntEntries([e]))
  {
    var n := |IntEntries(acc)|;
    if e.0.IntKey? {
      var x := (IntKey(n), e.1);
      IntEntriesAppend(acc, [x]);
      assert IntEntries([x]) == [x];
      assert IntEntries([e]) == [e];
      FindIntKey(acc, n);
      FindDense(IntEntries(acc), 0, n);
      assert !HasKey(acc, IntKey(n));
      assert Distinct(acc + [x]);
    } else {
      IntEntriesAssignStr(acc, e.0, e.1);
      AssignDistinct(acc, e.0, e.1);
      assert IntEntries([e]) == [];
    }
  }

  /**
   Copying `src` into a result that keeps the merge invariant keeps it, and
   appends the integer-keyed values of `src`, in order, to those already there.
   */
  lemma {:induction false} FoldInv(acc: Table, src: Table)
    requires MergeInv(acc)
    ensures MergeInv(Fold(acc, src))
    ensures Values(IntEntries(Fold(acc, src))) == Values(IntEntries(acc)) + Values(IntEntries(src))
    decreases |src|
  {
    if src != [] {
      var acc' := Put(acc, src[0]);
      assert Fold(acc, src) == Fold(acc', src[1..]);
      PutInv(acc, src[0]);
      FoldInv(acc', src[1..]);
      assert src == [src[0]] + src[1..];
      IntEntriesAppend([src[0]], src[1..]);
      ValuesAppend(IntEntries([src[0]]), IntEntries(src[1..]));
      ValuesAlgebra(Values(IntEntries(Fold(acc', src[1..]))), Values(IntEntries(acc')), Values(IntEntries(acc)),
                    Values(IntEntries([src[0]])), Values(IntEntries(src[1..])), Values(IntEntries(src)));
    }
  }

  /** Regroups the concatenations of one proof step over plain sequences, which keeps the caller's proof stable across solver seeds. */
  lemma {:induction false} ValuesAlgebra(r: seq<Value>, v': seq<Value>, v: seq<Value>,
                                         e: seq<Value>, rest: seq<Value>, src: seq<Value>)
    requires r == v' + rest && v' == v + e && src == e + rest
    ensures r == v + src
  {
    assert (v + e) + rest == v + (e + rest);
  }

  /**
   Copying a table with distinct keys: a string key of `src` ends up with the
   value it has in `src`; any other string key keeps its value in `acc`.
   */
  lemma {:induction false} FoldStrKey(acc: Table, src: Table, k: Key)
    requires k.StrKey? && Distinct(src)
    ensures Find(Fold(acc, src), k) == if HasKey(src, k) then Find(src, k) else Find(acc, k)
    decreases |src|
  {
    if src != [] {
      var rest := src[1..];
      var acc' := Put(acc, src[0]);
      assert Fold(acc, src) == Fold(acc', rest);
      DistinctTail(src);
      FoldStrKey(acc', rest, k);
      if src[0].0 == k {
        assert !HasKey(rest, k) by {
          forall i | 0 <= i < |rest| ensures rest[i].0 != k {
            assert rest[i] == src[i + 1];
          }
        }
      } else {
        HasKeyTail(src, k);
        PutFindOther(acc, src[0], k);
      }
    }
  }

  lemma DistinctTail(t: Table)
    requires t != [] && Distinct(t)
    ensures Distinct(t[1..])
  {
    forall i, j | 0 <= i < j < |t[1..]| ensures t[1..][i].0 != t[1..][j].0 {
      assert t[1..][i] == t[i + 1] && t[1..][j] == t[j + 1];
    }
  }

  lemma HasKeyTail(t: Table, k: Key)
    requires t != [] && t[0].0 != k
    ensures HasKey(t, k) <==> HasKey(t[1..], k)
  {
    if HasKey(t, k) {
      var i :| 0 <= i < |t| && t[i].0 == k;
      assert t[1..][i - 1].0 == k;
    }
    if HasKey(t[1..], k) {
      var i :| 0 <= i < |t[1..]| && t[1..][i].0 == k;
      assert t[i + 1].0 == k;
    }
  }

  /** A merge step leaves every string key other than its own as it was. */
  lemma PutFindOther(acc: Table, e: (Key, Value), k: Key)
    requires k.StrKey? && k != e.0
    ensures Find(Put(acc, e), k) == Find(acc, k)
  {
    if e.0.IntKey? {
      FindAppend(acc, [(IntKey(|IntEntries(acc)|), e.1)], k);
    } else {
      FindAssign(acc, e.0, e.1, k);
    }
  }

  /** `array_merge`, string keys: the batch's value wins, otherwise the old value stays. */
  lemma MergeStrKey(a: Table, b: Table, s: string)
    requires Distinct(a) && Distinct(b)
    ensures Find(Merge(a, b), StrKey(s)) ==
      if HasKey(b, StrKey(s)) then Find(b, StrKey(s)) else Find(a, StrKey(s))
  {
    FoldStrKey([], a, StrKey(s));
    FoldStrKey(Fold([], a), b, StrKey(s));
  }

  /**
   `array_merge`, integer keys: the integer-keyed values of the old array and
   then of the batch are renumbered 0 .. n-1 in order, so none is overwritten;
   no other integer key is present.
   */
  lemma MergeIntKey(a: Table, b: Table, m: int)
    ensures var vs := Values(IntEntries(a)) + Values(IntEntries(b));
      Find(Merge(a, b), IntKey(m)) == if 0 <= m < |vs| then Some(vs[m]) else None
  {
    var r := Merge(a, b);
    assert MergeInv([]);
    FoldInv([], a);
    FoldInv(Fold([], a), b);
    assert IntEntries([]) == [];
    FindIntKey(r, m);
    FindDense(IntEntries(r), 0, m);
  }

  /** The batch form of the adders: a read after `array_merge` sees the batch's string keys. */
  lemma LookupMergeStrKey(a: Table, b: Table, s: string)
    requires Distinct(a) && Distinct(b)
    ensures Lookup(Merge(a, b), StrKey(s)) ==
      if HasKey(b, StrKey(s)) then Lookup(b, StrKey(s)) else Lookup(a, StrKey(s))
  {
    MergeStrKey(a, b, s);
  }

  /** `array_merge` keeps an entry for every key it is given: its result is empty exactly when both arrays are. */
  lemma MergeEmpty(a: Table, b: Table)
    requires Distinct(a) && Distinct(b)
    ensures Merge(a, b) == [] <==> a == [] && b == []
  {
    var t := if a != [] then a else b;
    if t != [] {
      var k := t[0].0;
      assert HasKey(t, k);
      if k.StrKey? {
        MergeStrKey(a, b, k.s);
      } else {
        assert IntEntries(t) != [];
        MergeIntKey(a, b, 0);
      }
    }
  }

  // ---------------------------------------------------------------------
  // Order of the entries `array_merge` returns
  // ---------------------------------------------------------------------

  /** The keys of `ks` that are new to `t`: every integer key, and the string keys `t` lacks. */
  function Fresh(ks: seq<Key>, t: Table): (r: seq<Key>)
    ensures |r| <= |ks|
  {
    if ks == [] then []
    else if ks[0].StrKey? && HasKey(t, ks[0]) then Fresh(ks[1..], t)
    else [ks[0]] + Fresh(ks[1..], t)
  }

  /** `ks` with its integer keys replaced, in order, by n, n + 1, n + 2, ... */
  function Renumber(ks: seq<Key>, n: int): (r: seq<Key>)
    ensures |r| == |ks|
  {
    if ks == [] then []
    else if ks[0].IntKey? then [IntKey(n)] + Renumber(ks[1..], n + 1)
    else [ks[0]] + Renumber(ks[1..], n)
  }

  /** The number of integer keys in `ks`. */
  function IntCount(ks: seq<Key>): nat
  {
    if ks == [] then 0 else (if ks[0].IntKey? then 1 else 0) + IntCount(ks[1..])
  }

  lemma {:induction false} RenumberAppend(x: seq<Key>, y: seq<Key>, n: int)
    ensures Renumber(x + y, n) == Renumber(x, n) + Renumber(y, n + IntCount(x))
  {
    if x == [] {
      assert x + y == y;
    } else {
      assert (x + y)[1..] == x[1..] + y;
      RenumberAppend(x[1..], y, if x[0].IntKey? then n + 1 else n);
    }
  }

  lemma {:induction false} IntCountKeys(t: Table)
    ensures IntCount(Keys(t)) == |IntEntries(t)|
  {
    if t != [] {
      assert Keys(t)[1..] == Keys(t[1..]);
      IntCountKeys(t[1..]);
    }
  }

  lemma {:induction false} FreshOfEmpty(ks: seq<Key>)
    ensures Fresh(ks, []) == ks
  {
    if ks != [] {
      FreshOfEmpty(ks[1..]);
    }
  }

  /** Which keys are new depends only on which string keys of `ks` the table holds. */
  lemma {:induction false} FreshSame(ks: seq<Key>, t1: Table, t2: Table)
    requires forall k :: k in ks && k.StrKey? ==> (HasKey(t1, k) <==> HasKey(t2, k))
    ensures Fresh(ks, t1) == Fresh(ks, t2)
  {
    if ks != [] {
      assert ks[0] in ks;
      assert forall k :: k in ks[1..] ==> k in ks;
      FreshSame(ks[1..], t1, t2);
    }
  }

  /** A merge step does not change which string keys of the rest of a distinct source are new. */
  lemma FreshAfterPut(acc: Table, src: Table)
    requires src != [] && Distinct(src)
    ensures Fresh(Keys(src[1..]), Put(acc, src[0])) == Fresh(Keys(src[1..]), acc)
  {
    var rest := src[1..];
    forall k | k in Keys(rest) && k.StrKey? ensures HasKey(Put(acc, src[0]), k) <==> HasKey(acc, k) {
      var i :| 0 <= i < |Keys(rest)| && Keys(rest)[i] == k;
      assert rest[i] == src[i + 1];
      PutFindOther(acc, src[0], k);
    }
    FreshSame(Keys(rest), Put(acc, src[0]), acc);
  }

  /** The next free index grows by one exactly when a merge step copies an integer key. */
  lemma IntEntriesPut(acc: Table, e: (Key, Value))
    requires MergeInv(acc)
    ensures |IntEntries(Put(acc, e))| == |IntEntries(acc)| + (if e.0.IntKey? then 1 else 0)
  {
    PutInv(acc, e);
    assert IntEntries([e]) == if e.0.IntKey? then [e] else [];
  }

  /**
   Copying `src` into `acc` keeps the keys of `acc` in place and appends the
   keys of `src` that are new to `acc`, in order, with the integer keys
   renumbered from the next free index.
   */
  lemma {:induction false} FoldKeys(acc: Table, src: Table)
    requires MergeInv(acc) && Distinct(src)
    ensures Keys(Fold(acc, src)) == Keys(acc) + Renumber(Fresh(Keys(src), acc), |IntEntries(acc)|)
    decreases |src|
  {
    if src != [] {
      var e, rest := src[0], src[1..];
      var acc' := Put(acc, e);
      assert Fold(acc, src) == Fold(acc', rest);
      DistinctTail(src);
      PutInv(acc, e);
      FoldKeys(acc', rest);
      FreshAfterPut(acc, src);
      FoldKeysStep(acc, src);
    }
  }

  /** The step of `FoldKeys`: one copied entry, then the rest of the source. */
  lemma {:induction false} FoldKeysStep(acc: Table, src: Table)
    requires MergeInv(acc) && src != []
    ensures var acc' := Put(acc, src[0]);
      var f := Fresh(Keys(src[1..]), acc);
      Keys(acc') + Renumber(f, |IntEntries(acc')|) == Keys(acc) + Renumber(Fresh(Keys(src), acc), |IntEntries(acc)|)
  {
    var e := src[0];
    IntEntriesPut(acc, e);
    FreshCons(acc, src);
    StepAlgebra(Keys(acc), Keys(Put(acc, e)), Fresh(Keys(src), acc), Fresh(Keys(src[1..]), acc),
                e.0, HasKey(acc, e.0), |IntEntries(acc)|, |IntEntries(Put(acc, e))|);
  }

  /** Regroups the concatenations of one proof step over plain sequences, which keeps the caller's proof stable across solver seeds. */
  lemma {:induction false} StepAlgebra(ka: seq<Key>, ka': seq<Key>, fs: seq<Key>, f: seq<Key>,
                                       k: Key, has: bool, n: int, n': int)
    requires ka' == if k.IntKey? then ka + [IntKey(n)] else if has then ka else ka + [k]
    requires n' == if k.IntKey? then n + 1 else n
    requires fs == if k.StrKey? && has then f else [k] + f
    ensures ka' + Renumber(f, n') == ka + Renumber(fs, n)
  {
    if k.StrKey? && has {
      assert fs == f && ka' == ka && n' == n;
    } else {
      var k' := if k.IntKey? then IntKey(n) else k;
      assert fs == [k] + f;
      assert ka' == ka + [k'];
      RenumberCons(k, f, n);
      assert Renumber(fs, n) == [k'] + Renumber(f, n');
      assert (ka + [k']) + Renumber(f, n') == ka + ([k'] + Renumber(f, n'));
    }
  }

  lemma {:induction false} FreshCons(acc: Table, src: Table)
    requires src != []
    ensures var f := Fresh(Keys(src[1..]), acc);
      Fresh(Keys(src), acc) == if src[0].0.StrKey? && HasKey(acc, src[0].0) then f else [src[0].0] + f
  {
    assert Keys(src) == [src[0].0] + Keys(src[1..]);
    assert ([src[0].0] + Keys(src[1..]))[1..] == Keys(src[1..]);
  }

  lemma {:induction false} RenumberCons(k: Key, f: seq<Key>, n: int)
    ensures Renumber([k] + f, n) ==
      if k.IntKey? then [IntKey(n)] + Renumber(f, n + 1) else [k] + Renumber(f, n)
  {
    assert ([k] + f)[1..] == f;
  }

  /**
   `array_merge`, order: the keys of the old array come first, in their order,
   then the keys of the batch that are new to it, in the batch's order; every
   integer key along the way is renumbered 0, 1, 2, ... A string key both
   arrays hold keeps the old array's position.
   */
  lemma {:induction false} MergeKeys(a: Table, b: Table)
    requires Distinct(a) && Distinct(b)
    ensures Keys(Merge(a, b)) == Renumber(Keys(a) + Fresh(Keys(b), a), 0)
  {
    var a' := Fold([], a);
    assert Merge(a, b) == Fold(a', b);
    FoldEmpty(a);
    FoldKeys(a', b);
    FreshFoldEmpty(a, Keys(b));
    IntCountKeys(a);
    MergeAlgebra(Keys(Fold(a', b)), Keys(a'), Keys(a), Fresh(Keys(b), a'), Fresh(Keys(b), a),
                 |IntEntries(a')|, |IntEntries(a)|);
  }

  /** Regroups the concatenations of one proof step over plain sequences, which keeps the caller's proof stable across solver seeds. */
  lemma {:induction false} MergeAlgebra(kr: seq<Key>, ka': seq<Key>, ka: seq<Key>, fb': seq<Key>, fb: seq<Key>,
                                        n': int, n: int)
    requires kr == ka' + Renumber(fb', n')
    requires ka' == Renumber(ka, 0) && fb' == fb && n' == n && IntCount(ka) == n
    ensures kr == Renumber(ka + fb, 0)
  {
    RenumberAppend(ka, fb, 0);
  }

  /** Copying a table into an empty one renumbers its integer keys and keeps its order. */
  lemma {:induction false} FoldEmpty(a: Table)
    requires Distinct(a)
    ensures MergeInv(Fold([], a))
    ensures Keys(Fold([], a)) == Renumber(Keys(a), 0)
    ensures |IntEntries(Fold([], a))| == |IntEntries(a)|
  {
    assert MergeInv([]);
    FoldKeys([], a);
    FreshOfEmpty(Keys(a));
    FoldInv([], a);
    assert IntEntries([]) == [];
    assert Keys([]) == [];
  }

  /** A copy of a distinct table holds the same string keys as the table. */
  lemma {:induction false} FreshFoldEmpty(a: Table, ks: seq<Key>)
    requires Distinct(a)
    ensures Fresh(ks, Fold([], a)) == Fresh(ks, a)
  {
    forall k | k in ks && k.StrKey? ensures HasKey(Fold([], a), k) <==> HasKey(a, k) {
      FoldStrKey([], a, k);
    }
    FreshSame(ks, Fold([], a), a);
  }
}
