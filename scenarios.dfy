/**
 Call sequences a request builder performs on a parameter container, with
 what the container's contracts let a caller conclude about them.
 */
module Scenarios {
  import opened PhpArray
  import opened Request

  /** A fresh container has no parameters of any kind and no proxy. */
  method FreshContainer() returns (get: bool, post: bool, patch: bool, delete: bool, proxy: bool, auth: Value)
    ensures !get && !post && !patch && !delete && !proxy
    ensures auth == Arr([])
  {
    var p := new Params();
    get := p.HasGet();
    post := p.HasPost();
    patch := p.HasPatch();
    delete := p.HasDelete();
    proxy := p.HasProxy();
    auth := p.GetAuth(None);
  }

  /**
   `addGet('x')` stores 'x' with a null value: the GET table now counts as
   non-empty, while reading 'x' gives null, as for a key never stored.
   */
  method StoredNullIsCounted() returns (has: bool, got: Value, missing: Value)
    ensures has && got == Null && missing == Null
  {
    var p := new Params();
    var _ := p.AddGet(Str("x"), Null);
    has := p.HasGet();
    got := p.GetGet(Some(StrKey("x")));
    missing := p.GetGet(Some(StrKey("y")));
  }

  /**
   A later batch overwrites a string key, while an integer key of the batch
   is renumbered to the first free index instead of keeping its own number.
   */
  method BatchMerge() returns (a: Value, first: Value, five: Value, has: bool)
    ensures a == Int(9) && first == Str("z") && five == Null && has
  {
    var p := new Params();
    var _ := p.AddPost(Str("a"), Int(1));
    var batch := [(StrKey("a"), Int(9)), (IntKey(5), Str("z"))];
    ghost var before := p.postParams;
    var _ := p.AddPost(Arr(batch), Null);
    AddedBatchStrKey(before, batch, "a");
    AddedBatchIntKey(before, batch, 0);
    AddedBatchIntKey(before, batch, 5);
    a := p.GetPost(Some(StrKey("a")));
    first := p.GetPost(Some(IntKey(0)));
    five := p.GetPost(Some(IntKey(5)));
    has := p.HasPost();
  }

  /**
   The whole table after a batch, in order: the old string key keeps its
   place with the batch's value, the integer keys of both sides are
   renumbered 0, 1 in order, and the batch's new string key comes last.
   */
  method BatchMergeOrder() returns (all: Value)
    ensures all == Arr([(StrKey("a"), Int(4)), (IntKey(0), Int(2)), (IntKey(1), Int(3)), (StrKey("b"), Int(5))])
  {
    var p := new Params();
    var _ := p.AddPost(Str("a"), Int(1));
    assert p.postParams == [(StrKey("a"), Int(1))];
    var _ := p.AddPost(Int(3), Int(2));
    assert [(StrKey("a"), Int(1))][1..] == [];
    assert p.postParams == [(StrKey("a"), Int(1)), (IntKey(3), Int(2))];
    var _ := p.AddPost(Arr([(IntKey(9), Int(3)), (StrKey("a"), Int(4)), (StrKey("b"), Int(5))]), Null);
    MergeOrderExample();
    all := p.GetPost(None);
  }

  /** `array_merge(['a' => 1, 3 => 2], [9 => 3, 'a' => 4, 'b' => 5])`, worked out entry by entry. */
  lemma MergeOrderExample()
    ensures Merge([(StrKey("a"), Int(1)), (IntKey(3), Int(2))],
                  [(IntKey(9), Int(3)), (StrKey("a"), Int(4)), (StrKey("b"), Int(5))])
         == [(StrKey("a"), Int(4)), (IntKey(0), Int(2)), (IntKey(1), Int(3)), (StrKey("b"), Int(5))]
  {
    // the old table is copied first, its key 3 renumbered to 0 ...
    var copied := [(StrKey("a"), Int(1)), (IntKey(0), Int(2))];
    CopyExample();
    // ... then the batch: key 9 becomes 1, 'a' is overwritten in place, 'b' is appended
    var s1 := copied + [(IntKey(1), Int(3))];
    var s2 := [(StrKey("a"), Int(4)), (IntKey(0), Int(2)), (IntKey(1), Int(3))];
    PutRenumbersExample(copied);
    PutOverwritesExample(s1);
    PutAppendsExample(s2);
    FoldThree(copied, (IntKey(9), Int(3)), (StrKey("a"), Int(4)), (StrKey("b"), Int(5)), s2 + [(StrKey("b"), Int(5))]);
  }

  lemma CopyExample()
    ensures Fold([], [(StrKey("a"), Int(1)), (IntKey(3), Int(2))]) == [(StrKey("a"), Int(1)), (IntKey(0), Int(2))]
  {
    var t := [(StrKey("a"), Int(1)), (IntKey(3), Int(2))];
    assert Put([], t[0]) == [t[0]];
    assert IntEntries([t[0]]) == [];
    assert t[1..][1..] == [];
  }

  /** Copying three entries is three `Put` steps. */
  lemma FoldThree(acc: Table, e0: (Key, Value), e1: (Key, Value), e2: (Key, Value), r: Table)
    requires Put(Put(Put(acc, e0), e1), e2) == r
    ensures Fold(acc, [e0, e1, e2]) == r
  {
    var src := [e0, e1, e2];
    var a1, a2 := Put(acc, e0), Put(Put(acc, e0), e1);
    assert src[1..] == [e1, e2] && [e1, e2][1..] == [e2] && [e2][1..] == [];
    assert Fold(a2, [e2]) == r;
    assert Fold(a1, [e1, e2]) == Fold(a2, [e2]);
  }

  lemma PutRenumbersExample(copied: Table)
    requires copied == [(StrKey("a"), Int(1)), (IntKey(0), Int(2))]
    ensures Put(copied, (IntKey(9), Int(3))) == copied + [(IntKey(1), Int(3))]
  {
    assert IntEntries(copied) == [copied[1]] by {
      assert copied[1..][1..] == [];
    }
  }

  lemma PutOverwritesExample(s1: Table)
    requires s1 == [(StrKey("a"), Int(1)), (IntKey(0), Int(2)), (IntKey(1), Int(3))]
    ensures Put(s1, (StrKey("a"), Int(4))) == [(StrKey("a"), Int(4)), (IntKey(0), Int(2)), (IntKey(1), Int(3))]
  {
  }

  lemma PutAppendsExample(s2: Table)
    requires s2 == [(StrKey("a"), Int(4)), (IntKey(0), Int(2)), (IntKey(1), Int(3))]
    ensures Put(s2, (StrKey("b"), Int(5))) == s2 + [(StrKey("b"), Int(5))]
  {
    var e := (StrKey("b"), Int(5));
    assert Assign(s2[3..], e.0, e.1) == [e];
    assert Assign(s2[2..], e.0, e.1) == s2[2..] + [e];
    assert Assign(s2[1..], e.0, e.1) == s2[1..] + [e];
  }

  /** The five tables are independent: a GET parameter is no POST parameter. */
  method TablesAreIndependent() returns (get: Value, post: Value, hasPost: bool)
    ensures get == Int(1) && post == Null && !hasPost
  {
    var p := new Params();
    var _ := p.AddGet(Str("x"), Int(1));
    get := p.GetGet(Some(StrKey("x")));
    post := p.GetPost(Some(StrKey("x")));
    hasPost := p.HasPost();
  }

  /** The authorization helpers write under their fixed keys; the last write wins. */
  method AuthHelpers() returns (login: Value, apiKey: Value, token: Value)
    ensures login == Str("u") && apiKey == Str("k2") && token == Null
  {
    var p := new Params();
    var _ := p.AddLogin(Str("u"));
    var _ := p.AddApiKey(Str("k1"));
    ghost var before := p.authParams;
    var _ := p.AddAuth(StrKey("apiKey"), Str("k2"));
    LookupAssign(before, StrKey("apiKey"), Str("k2"), StrKey("apiKey"));
    login := p.GetAuth(Some(StrKey("login")));
    apiKey := p.GetAuth(Some(StrKey("apiKey")));
    token := p.GetAuth(Some(StrKey("access_token")));
  }

  /** Clearing one table twice leaves it empty and touches no other table. */
  method ClearTwice() returns (get: bool, post: bool, kept: Value)
    ensures !get && post && kept == Str("v")
  {
    var p := new Params();
    var _ := p.AddGet(Str("g"), Int(1));
    var _ := p.AddPost(Str("k"), Str("v"));
    var _ := p.ClearGet();
    var _ := p.ClearGet();
    get := p.HasGet();
    post := p.HasPost();
    kept := p.GetPost(Some(StrKey("k")));
  }

  /** `hasProxy` tests for a string: storing null or a number makes it false again. */
  method ProxyIsATypeTest() returns (isSet: bool, addr: Value, afterNull: bool, afterInt: bool)
    ensures isSet && addr == Str("1.2.3.4:8080") && !afterNull && !afterInt
  {
    var p := new Params();
    var _ := p.AddProxy(Str("1.2.3.4:8080"));
    isSet := p.HasProxy();
    addr := p.GetProxy();
    var _ := p.AddProxy(Null);
    afterNull := p.HasProxy();
    var _ := p.AddProxy(Int(8080));
    afterInt := p.HasProxy();
  }
}
