/**
 * The active-key enumeration of `SEOManager` (`getKeys`) and the snapshot
 * a renderer consumes (`all`).
 */
module Snapshot {
  import opened Optional
  import opened DottedKeys
  import opened TagStore

  /** The dot-free well-known keys. */
  const PlainKeys: seq<Key> := ["site", "title", "image", "description", "url", "type"]

  /** The well-known keys of the `twitter` extension. */
  const TwitterKeys: seq<Key> := [
    "twitter.creator", "twitter.site", "twitter.title", "twitter.image", "twitter.description"
  ]

  /** The well-known keys every snapshot starts from. */
  const FixedKeys: seq<Key> := PlainKeys + TwitterKeys

  /** A key the snapshot considers: well-known, defaulted or valued. */
  predicate Listed(s: State, k: Key) {
    k in FixedKeys || k in s.defaults || k in s.values
  }

  /**
   * The filter of `getKeys`: a dot-free key always passes; a dotted key
   * passes only when its head is a known extension whose flag is on.
   */
  predicate Active(s: State, k: Key) {
    !HasDot(k) || (Before(k) in s.extensions && s.extensions[Before(k)])
  }

  predicate Distinct(xs: seq<Key>) {
    forall i, j :: 0 <= i < j < |xs| ==> xs[i] != xs[j]
  }

  /** `array_keys` of a store map, in some order, each key once. */
  method Enumerate(keys: set<Key>) returns (r: seq<Key>)
    ensures forall k :: k in r <==> k in keys
    ensures Distinct(r)
  {
    r := [];
    var rest := keys;
    while rest != {}
      invariant rest <= keys
      invariant forall k :: k in r <==> k in keys && k !in rest
      invariant Distinct(r)
      decreases rest
    {
      var k :| k in rest;
      r := r + [k];
      rest := rest - {k};
    }
  }

  /** `unique()`, with keys compared as strings: one occurrence of each key. */
  method Unique(xs: seq<Key>) returns (r: seq<Key>)
    ensures forall k :: k in r <==> k in xs
    ensures Distinct(r)
  {
    r := [];
    var i := 0;
    while i < |xs|
      invariant 0 <= i <= |xs|
      invariant forall k :: k in r <==> k in xs[..i]
      invariant Distinct(r)
    {
      if xs[i] !in r {
        r := r + [xs[i]];
      }
      assert xs[..i + 1] == xs[..i] + [xs[i]];
      i := i + 1;
    }
    assert xs[..i] == xs;
  }

  /** The `filter` of `getKeys`: keeps the active keys, in order. */
  method KeepActive(s: State, xs: seq<Key>) returns (r: seq<Key>)
    requires Distinct(xs)
    ensures forall k :: k in r <==> k in xs && Active(s, k)
    ensures Distinct(r)
  {
    r := [];
    var i := 0;
    while i < |xs|
      invariant 0 <= i <= |xs|
      invariant forall k :: k in r <==> k in xs[..i] && Active(s, k)
      invariant Distinct(r)
    {
      if Active(s, xs[i]) {
        assert xs[i] !in xs[..i];
        r := r + [xs[i]];
      }
      assert xs[..i + 1] == xs[..i] + [xs[i]];
      i := i + 1;
    }
    assert xs[..i] == xs;
  }

  /**
   * `getKeys`: the well-known keys, then the defaulted keys, then the
   * valued keys, each once, keeping exactly the active ones.
   */
  method GetKeys(s: State) returns (keys: seq<Key>)
    ensures forall k :: k in keys <==> Listed(s, k) && Active(s, k)
    ensures Distinct(keys)
  {
    var defaulted := Enumerate(s.defaults.Keys);
    var valued := Enumerate(s.values.Keys);
    var merged := Unique(FixedKeys + defaulted + valued);
    keys := KeepActive(s, merged);
  }

  /** `all`: every active key mapped to what `get` resolves it to. */
  method All(s: State) returns (r: map<Key, Option<string>>)
    ensures forall k :: k in r <==> Listed(s, k) && Active(s, k)
    ensures forall k :: k in r ==> r[k] == Get(s, k)
  {
    var keys := GetKeys(s);
    r := map[];
    var i := 0;
    while i < |keys|
      invariant 0 <= i <= |keys|
      invariant forall k :: k in r <==> k in keys[..i]
      invariant forall k :: k in r ==> r[k] == Get(s, k)
    {
      r := r[keys[i] := Get(s, keys[i])];
      assert keys[..i + 1] == keys[..i] + [keys[i]];
      i := i + 1;
    }
    assert keys[..i] == keys;
  }

  /** The plain well-known keys have no dot. */
  lemma PlainKeysDotFree()
    ensures forall k :: k in PlainKeys ==> !HasDot(k)
  {
  }

  /** `twitter.<field>` is headed by `twitter`. */
  lemma TwitterHead(field: string)
    ensures HasDot("twitter." + field) && Before("twitter." + field) == "twitter"
  {
    assert "twitter." + field == "twitter" + "." + field;
    SplitJoin("twitter", field);
  }

  /** The well-known Twitter keys are headed by `twitter`. */
  lemma TwitterKeysHeaded()
    ensures forall k :: k in TwitterKeys ==> HasDot(k) && Before(k) == "twitter"
  {
    var fields := ["creator", "site", "title", "image", "description"];
    forall i | 0 <= i < 5
      ensures TwitterKeys[i] == "twitter." + fields[i]
    {
    }
    forall i | 0 <= i < 5
      ensures HasDot(TwitterKeys[i]) && Before(TwitterKeys[i]) == "twitter"
    {
      TwitterHead(fields[i]);
    }
  }

  /**
   * A `twitter.<field>` key with no value and no default of its own reads
   * as the plain `<field>` key, modifier included: `twitter.title` inherits
   * the title.
   */
  lemma TwitterKeyInheritsBase(s: State, field: string)
    requires !HasValue(s, "twitter." + field) && !HasDefault(s, "twitter." + field)
    ensures Get(s, "twitter." + field) == Get(s, field)
  {
    assert "twitter." + field == "twitter" + "." + field;
    SplitJoin("twitter", field);
  }

  /**
   * The well-known Twitter keys are in the snapshot exactly when the
   * `twitter` extension is on: never in a fresh store, and always once any
   * `twitter.*` key has been written.
   */
  lemma TwitterKeysFollowFlag(s: State)
    ensures forall k :: k in TwitterKeys ==>
      (Listed(s, k) && Active(s, k) <==> "twitter" in Extensions(s))
    ensures forall k :: k in TwitterKeys ==> !Active(Init(), k)
    ensures forall k, w, v :: k in TwitterKeys && HasDot(w) && Before(w) == "twitter" ==>
      Active(Assign(s, w, v), k)
  {
    TwitterKeysHeaded();
  }

  /** Every dot-free well-known key is always in the snapshot. */
  lemma PlainKeysAlwaysListed(s: State)
    ensures forall k :: k in PlainKeys ==> Listed(s, k) && Active(s, k)
  {
    PlainKeysDotFree();
  }

  /**
   * A written key joins the snapshot: a dot-free one always, a dotted one
   * because writing it switches its extension on.
   */
  lemma WrittenKeyIsListed(s: State, k: Key, v: Option<string>)
    ensures Listed(Assign(s, k, v), k) && Active(Assign(s, k, v), k)
  {
  }

  /** Switching an extension off drops every key it heads from the snapshot. */
  lemma DisabledExtensionHidesKeys(s: State, n: string, view: Option<string>, k: Key)
    requires HasDot(k) && Before(k) == n
    ensures !Active(Extension(s, n, false, view), k)
  {
  }
}
