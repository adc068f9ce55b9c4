/**
 The request parameter container of the amoCRM client (`libAmo\Request\Params`):
 five independent ordered tables (authorization, GET, POST, PATCH and DELETE
 parameters) and one proxy value, filled by the client before a request is
 sent. Every adder and clearer updates one field in place and returns the
 object itself for chaining.
 */
module Request {
  import opened PhpArray

  /** The fixed authorization keys written by the helper adders. */
  const LoginKey: Key := StrKey("login")
  const DomainKey: Key := StrKey("domain")
  const ApiKeyKey: Key := StrKey("apiKey")
  const AccessTokenKey: Key := StrKey("access_token")
  const LocaleKey: Key := StrKey("locale")

  /**
   What the adders with an optional value accept as `$name`: a key (an integer
   or a string, with any value), or an array together with the default null
   value. An array with a non-null value is a PHP fatal error.
   */
  predicate KeyOrBatch(name: Value, value: Value): (ok: bool)
    ensures ok && name.Arr? ==> value.Null? && Distinct(name.entries)
    ensures name.Null? || name.Bool? ==> !ok
    ensures name.Int? || name.Str? ==> ok
  {
    name.Int? || name.Str? || (name.Arr? && value.Null? && Distinct(name.entries))
  }

  /** The array key that an integer or string `$name` denotes. */
  function KeyOf(name: Value): (k: Key)
    requires name.Int? || name.Str?
    ensures name.Int? <==> k.IntKey?
    ensures name.Int? ==> k.i == name.i
    ensures name.Str? ==> k.s == name.s
  {
    if name.Int? then IntKey(name.i) else StrKey(name.s)
  }

  /**
   The table an adder with an optional value leaves behind: an array `$name`
   with a null value is merged with `array_merge`, anything else is stored
   under its key.
   */
  function Added(t: Table, name: Value, value: Value): (r: Table)
    requires Distinct(t) && KeyOrBatch(name, value)
    ensures Distinct(r)
    ensures r == [] <==> name.Arr? && t == [] && name.entries == []
  {
    if name.Arr? && value.Null? then
      MergeEmpty(t, name.entries);
      Merge(t, name.entries)
    else
      AssignDistinct(t, KeyOf(name), value);
      Assign(t, KeyOf(name), value)
  }

  /**
   The single-key form of an adder: the getters then read the stored value
   under that key (null when null was stored) and every other key as before.
   */
  lemma AddedKeyLookup(t: Table, name: Value, value: Value, k: Key)
    requires Distinct(t) && (name.Int? || name.Str?)
    ensures Lookup(Added(t, name, value), k) == if k == KeyOf(name) then value else Lookup(t, k)
    ensures HasKey(Added(t, name, value), KeyOf(name))
  {
    LookupAssign(t, KeyOf(name), value, k);
    StoredNullReadsAsAbsent(t, KeyOf(name));
    FindAssign(t, KeyOf(name), value, KeyOf(name));
  }

  /**
   The batch form of an adder, string keys: a key of the batch reads as the
   batch's value, any other string key reads as before.
   */
  lemma AddedBatchStrKey(t: Table, batch: Table, s: string)
    requires Distinct(t) && Distinct(batch)
    ensures Lookup(Added(t, Arr(batch), Null), StrKey(s)) ==
      if HasKey(batch, StrKey(s)) then Lookup(batch, StrKey(s)) else Lookup(t, StrKey(s))
  {
    LookupMergeStrKey(t, batch, s);
  }

  /**
   The batch form of an adder, integer keys: the integer-keyed values already
   in the table and then those of the batch are renumbered 0 .. n-1, so no
   integer-keyed value is overwritten.
   */
  lemma AddedBatchIntKey(t: Table, batch: Table, m: int)
    requires Distinct(t) && Distinct(batch)
    ensures var vs := Values(IntEntries(t)) + Values(IntEntries(batch));
      Lookup(Added(t, Arr(batch), Null), IntKey(m)) == if 0 <= m < |vs| then vs[m] else Null
  {
    MergeIntKey(t, batch, m);
  }

  class Params {
    var authParams: Table
    var getParams: Table
    var postParams: Table
    var patchParams: Table
    var deleteParams: Table
    /** The proxy server for the request; PHP leaves its type open, so any value may be stored. */
    var proxy: Value

    /** Each table is a PHP array: its keys are distinct. */
    ghost predicate Valid()
      reads this
    {
      && Distinct(authParams)
      && Distinct(getParams)
      && Distinct(postParams)
      && Distinct(patchParams)
      && Distinct(deleteParams)
    }

    /** A fresh container: every table empty, no proxy. */
    constructor ()
      ensures Valid()
      ensures authParams == [] && getParams == [] && postParams == []
      ensures patchParams == [] && deleteParams == []
      ensures proxy == Null
    {
      authParams := [];
      getParams := [];
      postParams := [];
      patchParams := [];
      deleteParams := [];
      proxy := Null;
    }

    method AddProxy(proxy: Value) returns (self: Params)
      modifies this
      ensures self == this
      ensures this.proxy == proxy
      ensures authParams == old(authParams) && getParams == old(getParams)
      ensures postParams == old(postParams) && patchParams == old(patchParams)
      ensures deleteParams == old(deleteParams)
    {
      this.proxy := proxy;
      self := this;
    }

    method AddAuth(name: Key, value: Value) returns (self: Params)
      requires Valid()
      modifies this
      ensures Valid() && self == this
      ensures authParams == Assign(old(authParams), name, value)
      ensures getParams == old(getParams) && postParams == old(postParams)
      ensures patchParams == old(patchParams) && deleteParams == old(deleteParams)
      ensures proxy == old(proxy)
    {
      AssignDistinct(authParams, name, value);
      authParams := Assign(authParams, name, value);
      self := this;
    }

    method AddLogin(value: Value) returns (self: Params)
      requires Valid()
      modifies this
      ensures Valid() && self == this
      ensures authParams == Assign(old(authParams), LoginKey, value)
      ensures getParams == old(getParams) && postParams == old(postParams)
      ensures patchParams == old(patchParams) && deleteParams == old(deleteParams)
      ensures proxy == old(proxy)
    {
      AssignDistinct(authParams, LoginKey, value);
      authParams := Assign(authParams, LoginKey, value);
      self := this;
    }

    method AddDomain(value: Value) returns (self: Params)
      requires Valid()
      modifies this
      ensures Valid() && self == this
      ensures authParams == Assign(old(authParams), DomainKey, value)
      ensures getParams == old(getParams) && postParams == old(postParams)
      ensures patchParams == old(patchParams) && deleteParams == old(deleteParams)
      ensures proxy == old(proxy)
    {
      AssignDistinct(authParams, DomainKey, value);
      authParams := Assign(authParams, DomainKey, value);
      self := this;
    }

    method AddApiKey(value: Value) returns (self: Params)
      requires Valid()
      modifies this
      ensures Valid() && self == this
      ensures authParams == Assign(old(authParams), ApiKeyKey, value)
      ensures getParams == old(getParams) && postParams == old(postParams)
      ensures patchParams == old(patchParams) && deleteParams == old(deleteParams)
      ensures proxy == old(proxy)
    {
      AssignDistinct(authParams, ApiKeyKey, value);
      authParams := Assign(authParams, ApiKeyKey, value);
      self := this;
    }

    method AddAccessToken(value: Value) returns (self: Params)
      requires Valid()
      modifies this
      ensures Valid() && self == this
      ensures authParams == Assign(old(authParams), AccessTokenKey, value)
      ensures getParams == old(getParams) && postParams == old(postParams)
      ensures patchParams == old(patchParams) && deleteParams == old(deleteParams)
      ensures proxy == old(proxy)
    {
      AssignDistinct(authParams, AccessTokenKey, value);
      authParams := Assign(authParams, AccessTokenKey, value);
      self := this;
    }

    method AddLocale(value: Value) returns (self: Params)
      requires Valid()
      modifies this
      ensures Valid() && self == this
      ensures authParams == Assign(old(authParams), LocaleKey, value)
      ensures getParams == old(getParams) && postParams == old(postParams)
      ensures patchParams == old(patchParams) && deleteParams == old(deleteParams)
      ensures proxy == old(proxy)
    {
      AssignDistinct(authParams, LocaleKey, value);
      authParams := Assign(authParams, LocaleKey, value);
      self := this;
    }

    /** `getAuth($name)`: one parameter (null when not set), or the whole table when `$name` is null. */
    method GetAuth(name: Option<Key>) returns (r: Value)
      ensures name.None? ==> r == Arr(authParams)
      ensures name.Some? ==> r == Lookup(authParams, name.value)
    {
      if name.Some? {
        return Lookup(authParams, name.value);
      }
      return Arr(authParams);
    }

    method AddGet(name: Value, value: Value) returns (self: Params)
      requires Valid() && KeyOrBatch(name, value)
      modifies this
      ensures Valid() && self == this
      ensures getParams == Added(old(getParams), name, value)
      ensures authParams == old(authParams) && postParams == old(postParams)
      ensures patchParams == old(patchParams) && deleteParams == old(deleteParams)
      ensures proxy == old(proxy)
    {
      getParams := Added(getParams, name, value);
      self := this;
    }

    method GetGet(name: Option<Key>) returns (r: Value)
      ensures name.None? ==> r == Arr(getParams)
      ensures name.Some? ==> r == Lookup(getParams, name.value)
    {
      if name.Some? {
        return Lookup(getParams, name.value);
      }
      return Arr(getParams);
    }

    /** `hasGet()`: `count` is non-zero, null-valued entries included. */
    method HasGet() returns (r: bool)
      ensures r <==> |getParams| > 0
    {
      r := |getParams| != 0;
    }

    method ClearGet() returns (self: Params)
      requires Valid()
      modifies this
      ensures Valid() && self == this
      ensures getParams == []
      ensures authParams == old(authParams) && postParams == old(postParams)
      ensures patchParams == old(patchParams) && deleteParams == old(deleteParams)
      ensures proxy == old(proxy)
    {
      getParams := [];
      self := this;
    }

    method AddPost(name: Value, value: Value) returns (self: Params)
      requires Valid() && KeyOrBatch(name, value)
      modifies this
      ensures Valid() && self == this
      ensures postParams == Added(old(postParams), name, value)
      ensures authParams == old(authParams) && getParams == old(getParams)
      ensures patchParams == old(patchParams) && deleteParams == old(deleteParams)
      ensures proxy == old(proxy)
    {
      postParams := Added(postParams, name, value);
      self := this;
    }

    method AddPatch(name: Value, value: Value) returns (self: Params)
      requires Valid() && KeyOrBatch(name, value)
      modifies this
      ensures Valid() && self == this
      ensures patchParams == Added(old(patchParams), name, value)
      ensures authParams == old(authParams) && getParams == old(getParams)
      ensures postParams == old(postParams) && deleteParams == old(deleteParams)
      ensures proxy == old(proxy)
    {
      patchParams := Added(patchParams, name, value);
      self := this;
    }

    method AddDelete(name: Value, value: Value) returns (self: Params)
      requires Valid() && KeyOrBatch(name, value)
      modifies this
      ensures Valid() && self == this
      ensures deleteParams == Added(old(deleteParams), name, value)
      ensures authParams == old(authParams) && getParams == old(getParams)
      ensures postParams == old(postParams) && patchParams == old(patchParams)
      ensures proxy == old(proxy)
    {
      deleteParams := Added(deleteParams, name, value);
      self := this;
    }

    method GetPost(name: Option<Key>) returns (r: Value)
      ensures name.None? ==> r == Arr(postParams)
      ensures name.Some? ==> r == Lookup(postParams, name.value)
    {
      if name.Some? {
        return Lookup(postParams, name.value);
      }
      return Arr(postParams);
    }

    method GetPatch(name: Option<Key>) returns (r: Value)
      ensures name.None? ==> r == Arr(patchParams)
      ensures name.Some? ==> r == Lookup(patchParams, name.value)
    {
      if name.Some? {
        return Lookup(patchParams, name.value);
      }
      return Arr(patchParams);
    }

    method GetDelete(name: Option<Key>) returns (r: Value)
      ensures name.None? ==> r == Arr(deleteParams)
      ensures name.Some? ==> r == Lookup(deleteParams, name.value)
    {
      if name.Some? {
        return Lookup(deleteParams, name.value);
      }
      return Arr(deleteParams);
    }

    method HasPost() returns (r: bool)
      ensures r <==> |postParams| > 0
    {
      r := |postParams| != 0;
    }

    method HasPatch() returns (r: bool)
      ensures r <==> |patchParams| > 0
    {
      r := |patchParams| != 0;
    }

    method HasDelete() returns (r: bool)
      ensures r <==> |deleteParams| > 0
    {
      r := |deleteParams| != 0;
    }

    method ClearPost() returns (self: Params)
      requires Valid()
      modifies this
      ensures Valid() && self == this
      ensures postParams == []
      ensures authParams == old(authParams) && getParams == old(getParams)
      ensures patchParams == old(patchParams) && deleteParams == old(deleteParams)
      ensures proxy == old(proxy)
    {
      postParams := [];
      self := this;
    }

    method ClearPatch() returns (self: Params)
      requires Valid()
      modifies this
      ensures Valid() && self == this
      ensures patchParams == []
      ensures authParams == old(authParams) && getParams == old(getParams)
      ensures postParams == old(postParams) && deleteParams == old(deleteParams)
      ensures proxy == old(proxy)
    {
      patchParams := [];
      self := this;
    }

    method GetProxy() returns (r: Value)
      ensures r == proxy
    {
      r := proxy;
    }

    /** `hasProxy()` is the type test `is_string`, not "was a proxy ever set". */
    method HasProxy() returns (r: bool)
      ensures r <==> proxy.Str?
    {
      r := proxy.Str?;
    }
  }
}
