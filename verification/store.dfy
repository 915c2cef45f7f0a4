/**
 * The tag value store of `SEOManager`: explicit values, defaults and
 * modifiers keyed by dotted keys, extension flags, a flat meta store and
 * the recorded head tags. Every operation is a pure function from one
 * state to the next.
 */
module TagStore {
  import opened Optional
  import opened DottedKeys

  /** A value transformer registered for one key; it only ever sees explicit values. */
  type Modifier = string -> string

  datatype State = State(
    values: map<Key, Option<string>>,
    defaults: map<Key, Option<string>>,
    modifiers: map<Key, Modifier>,
    extensions: map<string, bool>,
    meta: map<string, string>,
    tags: map<string, string>)

  /** A write together with what the store hands back for the written key. */
  datatype Written = Written(state: State, value: Option<string>)

  /** A batch write together with each input key's value, in input order. */
  datatype Batch = Batch(state: State, values: seq<(Key, Option<string>)>)

  /** What a call hands back: the store itself (fluent) or a value it read. */
  datatype Reply = Fluent | Read(value: Option<string>)

  /** A state change together with the call's reply. */
  datatype Step = Step(state: State, reply: Reply)

  /** The store as constructed: everything empty, the `twitter` extension known but off. */
  function Init(): (s: State)
    ensures s.values == map[] && s.defaults == map[] && s.modifiers == map[]
    ensures s.meta == map[] && s.tags == map[]
    ensures s.extensions.Keys == {"twitter"} && !s.extensions["twitter"]
  {
    State(map[], map[], map[], map["twitter" := false], map[], map[])
  }

  // ---------------------------------------------------------------------
  // Resolution
  // ---------------------------------------------------------------------

  /** `isset($this->values[$k])`: a stored null counts as absent. */
  predicate HasValue(s: State, k: Key) {
    k in s.values && s.values[k].Some?
  }

  /** `$this->defaults[$k] ?? …` takes the default only when it is not null. */
  predicate HasDefault(s: State, k: Key) {
    k in s.defaults && s.defaults[k].Some?
  }

  /** Some key of `k`'s fallback chain carries a non-null value or default. */
  predicate Resolvable(s: State, k: Key) {
    exists j :: j in Chain(k) && (HasValue(s, j) || HasDefault(s, j))
  }

  /** Walking `c` front to back reaches a key with a non-null value or default. */
  predicate ReachesSet(s: State, c: seq<Key>)
    decreases |c|
  {
    |c| > 0 && (HasValue(s, c[0]) || HasDefault(s, c[0]) || ReachesSet(s, c[1..]))
  }

  /** The walk reaches a set key exactly when some key of the sequence is set. */
  lemma {:induction false} ReachesSetIffSome(s: State, c: seq<Key>)
    decreases |c|
    ensures ReachesSet(s, c) <==> exists j :: j in c && (HasValue(s, j) || HasDefault(s, j))
  {
    if |c| > 0 {
      ReachesSetIffSome(s, c[1..]);
      if !HasValue(s, c[0]) && !HasDefault(s, c[0]) {
        forall j | j in c && (HasValue(s, j) || HasDefault(s, j))
          ensures j in c[1..]
        {
          var i :| 0 <= i < |c| && c[i] == j;
          assert i != 0;
          assert c[1..][i - 1] == j;
        }
        if ReachesSet(s, c[1..]) {
          var j :| j in c[1..] && (HasValue(s, j) || HasDefault(s, j));
          assert j in c;
        }
      } else {
        assert c[0] in c;
      }
    }
  }

  /**
   * `modify`: the explicit value of `k`, passed through `k`'s modifier when
   * one is registered; only ever called when `k` has a non-null value.
   */
  function Modify(s: State, k: Key): (r: string)
    requires HasValue(s, k)
    ensures k in s.modifiers ==> r == s.modifiers[k](s.values[k].value)
    ensures k !in s.modifiers ==> r == s.values[k].value
  {
    if k in s.modifiers then s.modifiers[k](s.values[k].value) else s.values[k].value
  }

  /**
   * `get`: explicit value (modified), else default, else the lookup of the
   * part after the first dot, else null. The recursion ends because the
   * part after the first dot is strictly shorter.
   */
  function Get(s: State, k: Key): (r: Option<string>)
    decreases |k|
    ensures r.Some? <==> ReachesSet(s, Chain(k))
  {
    if HasValue(s, k) then Some(Modify(s, k))
    else if HasDefault(s, k) then s.defaults[k]
    else if HasDot(k) then Get(s, After(k))
    else None
  }

  /**
   * `get` never fails, and it is null exactly when no key along the
   * fallback chain has a non-null value or default.
   */
  lemma GetNullIffUnset(s: State, k: Key)
    ensures Get(s, k).Some? <==> Resolvable(s, k)
  {
    ReachesSetIffSome(s, Chain(k));
  }

  /**
   * `raw`: like `get`, but an explicit value of `k` is returned without
   * `k`'s modifier. The dot fallback still goes through `get`.
   */
  function Raw(s: State, k: Key): (r: Option<string>)
    ensures HasValue(s, k) ==> r == s.values[k]
    ensures r.Some? <==> Get(s, k).Some?
  {
    if HasValue(s, k) then s.values[k]
    else if HasDefault(s, k) then s.defaults[k]
    else if HasDot(k) then Get(s, After(k))
    else None
  }

  /** What `k` resolves to on its own, before any dot fallback. */
  function Local(s: State, k: Key): Option<string> {
    if HasValue(s, k) then Some(Modify(s, k))
    else if HasDefault(s, k) then s.defaults[k]
    else None
  }

  /**
   * `get` only looks at the keys of the fallback chain: two stores whose
   * keys resolve alike locally along `k`'s chain resolve `k` alike.
   */
  lemma {:induction false} GetFrame(s: State, t: State, k: Key)
    requires forall j :: j in Chain(k) ==> Local(s, j) == Local(t, j)
    ensures Get(s, k) == Get(t, k)
    decreases |k|
  {
    assert Local(s, k) == Local(t, k);
    if !HasValue(s, k) && !HasDefault(s, k) && HasDot(k) {
      assert Chain(k) == [k] + Chain(After(k));
      GetFrame(s, t, After(k));
    }
  }

  /** A change confined to key `k` does not affect any key of `After(k)`'s chain. */
  lemma FrameBelow(s: State, t: State, k: Key)
    requires HasDot(k)
    requires forall j :: j != k ==> Local(s, j) == Local(t, j)
    ensures Get(s, After(k)) == Get(t, After(k))
  {
    var c := Chain(After(k));
    forall j | j in c
      ensures Local(s, j) == Local(t, j)
    {
      var i :| 0 <= i < |c| && c[i] == j;
      assert |j| <= |After(k)|;
    }
    GetFrame(s, t, After(k));
  }

  /**
   * With no non-null value and no non-null default, `get` is the lookup of
   * the part after the first dot, or null for a dot-free key.
   */
  lemma GetFallsBack(s: State, k: Key)
    requires !HasValue(s, k) && !HasDefault(s, k)
    ensures HasDot(k) ==> Get(s, k) == Get(s, After(k)) && |After(k)| < |k|
    ensures !HasDot(k) ==> Get(s, k) == None
  {
  }

  /**
   * An explicit value comes back through `k`'s own modifier, and a default
   * comes back untouched whatever modifier is registered for `k`.
   */
  lemma GetExplicitOrDefault(s: State, k: Key)
    ensures HasValue(s, k) && k in s.modifiers ==> Get(s, k) == Some(s.modifiers[k](s.values[k].value))
    ensures HasValue(s, k) && k !in s.modifiers ==> Get(s, k) == s.values[k]
    ensures !HasValue(s, k) && HasDefault(s, k) ==> Get(s, k) == s.defaults[k]
  {
  }

  /**
   * Modifiers are applied to explicit values only: when no key of `k`'s
   * chain has an explicit value, replacing every modifier changes nothing.
   */
  lemma {:induction false} ModifiersIgnoreDefaults(s: State, k: Key, m: map<Key, Modifier>)
    requires forall j :: j in Chain(k) ==> !HasValue(s, j)
    ensures Get(s.(modifiers := m), k) == Get(s, k)
  {
    var t := s.(modifiers := m);
    forall j | j in Chain(k)
      ensures Local(t, j) == Local(s, j)
    {
      assert !HasValue(s, j) && !HasValue(t, j);
    }
    GetFrame(t, s, k);
  }

  /**
   * `raw` differs from `get` exactly by `k`'s own modifier: it is the
   * lookup of `k` in a store where only that modifier is removed, so the
   * modifier of the key it falls back to still applies.
   */
  lemma {:induction false} RawIsGetWithoutOwnModifier(s: State, k: Key)
    ensures Raw(s, k) == Get(s.(modifiers := s.modifiers - {k}), k)
  {
    var t := s.(modifiers := s.modifiers - {k});
    if !HasValue(s, k) && !HasDefault(s, k) && HasDot(k) {
      FrameBelow(s, t, k);
    }
  }

  // ---------------------------------------------------------------------
  // Writes
  // ---------------------------------------------------------------------

  /**
   * The state change of `set($k, $v)`: stores `v` (null included) and
   * switches on the extension named by a dotted key's head.
   */
  function Assign(s: State, k: Key, v: Option<string>): (t: State)
    ensures t.values == s.values[k := v]
    ensures HasDot(k) ==> t.extensions == s.extensions[Before(k) := true]
    ensures !HasDot(k) ==> t.extensions == s.extensions
    ensures t.defaults == s.defaults && t.modifiers == s.modifiers
    ensures t.meta == s.meta && t.tags == s.tags
  {
    var written := s.(values := s.values[k := v]);
    if HasDot(k) then Extension(written, Before(k), true, None) else written
  }

  /**
   * `set($k, $v)`: hands back `get($k)` in the new state, which is `v`
   * through `k`'s modifier, or for a null `v` what `k` resolves to without
   * an explicit value.
   */
  function Set(s: State, k: Key, v: Option<string>): (r: Written)
    ensures r.state == Assign(s, k, v)
    ensures r.value == Get(r.state, k)
    ensures v.Some? && k in s.modifiers ==> r.value == Some(s.modifiers[k](v.value))
    ensures v.Some? && k !in s.modifiers ==> r.value == v
    ensures v.None? ==> r.value == Get(s.(values := s.values - {k}), k)
  {
    var t := Assign(s, k, v);
    if v.None? then
      AssignNullClears(s, k);
      Written(t, Get(t, k))
    else
      assert HasValue(t, k) && (k in t.modifiers <==> k in s.modifiers);
      Written(t, Get(t, k))
  }

  /** Writing null reads like removing the explicit value: a stored null counts as absent. */
  lemma AssignNullClears(s: State, k: Key)
    ensures Get(Assign(s, k, None), k) == Get(s.(values := s.values - {k}), k)
  {
    var t := Assign(s, k, None);
    var u := s.(values := s.values - {k});
    assert !HasValue(t, k) && !HasValue(u, k) && t.defaults == u.defaults;
    if HasDot(k) {
      forall j | j != k
        ensures Local(t, j) == Local(u, j)
      {
        assert HasValue(t, j) == HasValue(u, j);
      }
      FrameBelow(t, u, k);
    }
  }

  /**
   * Writing `k` changes what `get(j)` resolves to only when `k` is on
   * `j`'s fallback chain; every other key reads as before.
   */
  lemma {:induction false} SetLeavesUnrelatedKeys(s: State, k: Key, v: Option<string>, j: Key)
    requires k !in Chain(j)
    ensures Get(Assign(s, k, v), j) == Get(s, j)
  {
    var t := Assign(s, k, v);
    forall x | x in Chain(j)
      ensures Local(t, x) == Local(s, x)
    {
      assert x != k;
    }
    GetFrame(t, s, j);
  }

  /** Entry `i` is the last entry of `e` for its key. */
  predicate IsLast<V>(e: seq<(Key, V)>, i: int)
    requires 0 <= i < |e|
  {
    forall j :: i < j < |e| ==> e[j].0 != e[i].0
  }

  /** The keys of a batch. */
  function KeysOf<V>(e: seq<(Key, V)>): set<Key> {
    set i | 0 <= i < |e| :: e[i].0
  }

  /** The extension names a batch switches on: the heads of its dotted keys. */
  function Prefixes<V>(e: seq<(Key, V)>): set<string> {
    set i | 0 <= i < |e| && HasDot(e[i].0) :: Before(e[i].0)
  }

  /**
   * The `foreach` of batch `set`: applies the entries in order. It touches
   * values and extension flags only.
   */
  function SetAll(s: State, e: seq<(Key, Option<string>)>): (t: State)
    decreases |e|
    ensures t.defaults == s.defaults && t.modifiers == s.modifiers
    ensures t.meta == s.meta && t.tags == s.tags
  {
    if |e| == 0 then s
    else Assign(SetAll(s, e[..|e| - 1]), e[|e| - 1].0, e[|e| - 1].1)
  }

  lemma KeysOfSnoc<V>(e: seq<(Key, V)>)
    requires |e| > 0
    ensures KeysOf(e) == KeysOf(e[..|e| - 1]) + {e[|e| - 1].0}
  {
    var init := e[..|e| - 1];
    forall x | x in KeysOf(e)
      ensures x in KeysOf(init) + {e[|e| - 1].0}
    {
      var i :| 0 <= i < |e| && e[i].0 == x;
      if i < |init| {
        assert init[i].0 == x;
      }
    }
    forall x | x in KeysOf(init)
      ensures x in KeysOf(e)
    {
      var i :| 0 <= i < |init| && init[i].0 == x;
      assert e[i].0 == x;
    }
  }

  lemma PrefixesSnoc<V>(e: seq<(Key, V)>)
    requires |e| > 0
    ensures Prefixes(e) == Prefixes(e[..|e| - 1]) + (if HasDot(e[|e| - 1].0) then {Before(e[|e| - 1].0)} else {})
  {
    var init := e[..|e| - 1];
    var k := e[|e| - 1].0;
    forall x | x in Prefixes(e)
      ensures x in Prefixes(init) + (if HasDot(k) then {Before(k)} else {})
    {
      var i :| 0 <= i < |e| && HasDot(e[i].0) && Before(e[i].0) == x;
      if i < |init| {
        assert init[i].0 == e[i].0;
      }
    }
    forall x | x in Prefixes(init)
      ensures x in Prefixes(e)
    {
      var i :| 0 <= i < |init| && HasDot(init[i].0) && Before(init[i].0) == x;
      assert e[i].0 == init[i].0;
    }
  }

  /** One more batch entry overwrites one value. */
  lemma SetAllSnoc(s: State, e: seq<(Key, Option<string>)>)
    requires |e| > 0
    ensures SetAll(s, e).values == SetAll(s, e[..|e| - 1]).values[e[|e| - 1].0 := e[|e| - 1].1]
  {
  }

  /** Batch `set` adds exactly the batch keys and keeps every other value. */
  lemma {:induction false} SetAllKeeps(s: State, e: seq<(Key, Option<string>)>)
    decreases |e|
    ensures SetAll(s, e).values.Keys == s.values.Keys + KeysOf(e)
    ensures forall k :: k in s.values && k !in KeysOf(e) ==> SetAll(s, e).values[k] == s.values[k]
  {
    if |e| > 0 {
      SetAllKeeps(s, e[..|e| - 1]);
      KeysOfSnoc(e);
      SetAllSnoc(s, e);
    }
  }

  /** Batch `set` leaves the last write of each key. */
  lemma {:induction false} SetAllValues(s: State, e: seq<(Key, Option<string>)>)
    decreases |e|
    ensures forall i :: 0 <= i < |e| && IsLast(e, i) ==> e[i].0 in SetAll(s, e).values
    ensures forall i :: 0 <= i < |e| && IsLast(e, i) ==> SetAll(s, e).values[e[i].0] == e[i].1
  {
    if |e| > 0 {
      var init := e[..|e| - 1];
      var k := e[|e| - 1].0;
      SetAllValues(s, init);
      SetAllSnoc(s, e);
      forall i | 0 <= i < |e| && IsLast(e, i)
        ensures e[i].0 in SetAll(s, e).values && SetAll(s, e).values[e[i].0] == e[i].1
      {
        if i < |init| {
          assert init[i] == e[i];
          assert IsLast(init, i);
        }
      }
    }
  }

  /**
   * The extension flags the `foreach` of batch `set` leaves behind: the
   * heads of its dotted keys are switched on and every other flag is kept.
   */
  lemma {:induction false} SetAllExtensions(s: State, e: seq<(Key, Option<string>)>)
    decreases |e|
    ensures SetAll(s, e).extensions.Keys == s.extensions.Keys + Prefixes(e)
    ensures forall n :: n in Prefixes(e) ==> SetAll(s, e).extensions[n]
    ensures forall n :: n in s.extensions && n !in Prefixes(e) ==> SetAll(s, e).extensions[n] == s.extensions[n]
  {
    if |e| > 0 {
      SetAllExtensions(s, e[..|e| - 1]);
      PrefixesSnoc(e);
    }
  }

  /**
   * Batch `set($array)`: applies every entry in order and hands back, for
   * each input key in input order, its value after all the writes.
   */
  function BatchSet(s: State, e: seq<(Key, Option<string>)>): (r: Batch)
    ensures r.state == SetAll(s, e)
    ensures |r.values| == |e|
    ensures forall i :: 0 <= i < |e| ==> r.values[i].0 == e[i].0 && r.values[i].1 == Get(r.state, e[i].0)
    ensures forall i :: 0 <= i < |e| && IsLast(e, i) && e[i].1.Some? && e[i].0 !in s.modifiers ==>
      r.values[i].1 == e[i].1
  {
    var t := SetAll(s, e);
    var out := seq(|e|, i requires 0 <= i < |e| => (e[i].0, Get(t, e[i].0)));
    assert forall i :: 0 <= i < |e| && IsLast(e, i) && e[i].1.Some? && e[i].0 !in s.modifiers ==>
      out[i].1 == e[i].1 by {
      SetAllValues(s, e);
      forall i | 0 <= i < |e| && IsLast(e, i) && e[i].1.Some? && e[i].0 !in s.modifiers
        ensures out[i].1 == e[i].1
      {
        assert HasValue(t, e[i].0) && e[i].0 !in t.modifiers;
      }
    }
    Batch(t, out)
  }

  // ---------------------------------------------------------------------
  // Extensions
  // ---------------------------------------------------------------------

  /** PHP truthiness of a nullable string: null, "" and "0" are false. */
  predicate Truthy(view: Option<string>) {
    view.Some? && view.value != "" && view.value != "0"
  }

  /** The meta path under which an extension's view is recorded. */
  function ViewKey(n: string): string {
    "extensions." + n + ".view"
  }

  /** Distinct extensions record their views under distinct meta paths. */
  lemma ViewKeyInjective(m: string, n: string)
    requires ViewKey(m) == ViewKey(n)
    ensures m == n
  {
    var p := "extensions.";
    assert |m| == |n|;
    assert m == ViewKey(m)[|p|..|p| + |m|];
    assert n == ViewKey(n)[|p|..|p| + |n|];
  }

  /** `extension($n, $enabled, $view)`: sets the flag; records the view only when it is truthy. */
  function Extension(s: State, n: string, enabled: bool, view: Option<string>): (t: State)
    ensures t.extensions == s.extensions[n := enabled]
    ensures Truthy(view) ==> t.meta == s.meta[ViewKey(n) := view.value]
    ensures !Truthy(view) ==> t.meta == s.meta
    ensures t.values == s.values && t.defaults == s.defaults && t.modifiers == s.modifiers
    ensures t.tags == s.tags
  {
    var flagged := s.(extensions := s.extensions[n := enabled]);
    if Truthy(view) then Meta(flagged, ViewKey(n), view).state else flagged
  }

  /** The view an enabled extension renders with: the recorded one, else `seo::extensions.<n>`. */
  function ViewOf(s: State, n: string): (r: string)
    ensures MetaGet(s, ViewKey(n)).Some? ==> r == MetaGet(s, ViewKey(n)).value
    ensures MetaGet(s, ViewKey(n)).None? ==> r == "seo::extensions." + n
  {
    if ViewKey(n) in s.meta then s.meta[ViewKey(n)] else "seo::extensions." + n
  }

  /** `extensions()`: every enabled extension, mapped to its view. */
  function Extensions(s: State): (r: map<string, string>)
    ensures forall n :: n in r <==> n in s.extensions && s.extensions[n]
    ensures forall n :: n in r ==> r[n] == ViewOf(s, n)
  {
    map n | n in s.extensions && s.extensions[n] :: ViewOf(s, n)
  }

  /**
   * After `extension(n, enabled, view)`, `n` is listed by `extensions()`
   * exactly when enabled, with the truthy view just given, or else the view
   * recorded before, or else the conventional one; every other extension is
   * listed as before.
   */
  lemma ExtensionThenExtensions(s: State, n: string, enabled: bool, view: Option<string>)
    ensures n in Extensions(Extension(s, n, enabled, view)) <==> enabled
    ensures enabled && Truthy(view) ==> Extensions(Extension(s, n, enabled, view))[n] == view.value
    ensures enabled && !Truthy(view) ==> Extensions(Extension(s, n, enabled, view))[n] == ViewOf(s, n)
    ensures forall m :: m != n ==>
      (m in Extensions(Extension(s, n, enabled, view)) <==> m in Extensions(s))
    ensures forall m :: m != n && m in Extensions(s) ==>
      Extensions(Extension(s, n, enabled, view))[m] == Extensions(s)[m]
  {
    var t := Extension(s, n, enabled, view);
    forall m | m != n
      ensures ViewOf(t, m) == ViewOf(s, m)
    {
      if ViewKey(m) == ViewKey(n) {
        ViewKeyInjective(m, n);
      }
    }
  }

  /** Writing a dotted key switches its extension on, whatever its flag was. */
  lemma SetEnablesExtension(s: State, k: Key, v: Option<string>)
    requires HasDot(k)
    ensures Before(k) in Extensions(Set(s, k, v).state)
    ensures Extensions(Set(s, k, v).state)[Before(k)] == ViewOf(s, Before(k))
  {
  }

  /** `favicon()`: switches the `favicon` extension on and nothing else. */
  function Favicon(s: State): (t: State)
    ensures "favicon" in Extensions(t)
    ensures forall n :: n != "favicon" ==> (n in Extensions(t) <==> n in Extensions(s))
    ensures t.extensions == s.extensions["favicon" := true]
    ensures t.values == s.values && t.defaults == s.defaults && t.modifiers == s.modifiers
    ensures t.meta == s.meta && t.tags == s.tags
  {
    s.(extensions := s.extensions["favicon" := true])
  }

  // ---------------------------------------------------------------------
  // Meta
  // ---------------------------------------------------------------------

  /** `data_get` on the flat meta store: the entry at `key`, or null when nothing was written there. */
  function MetaGet(s: State, key: string): (r: Option<string>)
    ensures r.None? <==> key !in s.meta
    ensures r.Some? ==> r.value == s.meta[key]
  {
    if key in s.meta then Some(s.meta[key]) else None
  }

  /**
   * `meta($key, $value)`: a null value reads (and leaves the store alone),
   * any other value is written and the store is handed back.
   */
  function Meta(s: State, key: string, value: Option<string>): (r: Step)
    ensures value.None? ==> r.state == s && r.reply == Read(MetaGet(s, key))
    ensures value.Some? ==> r.reply == Fluent && MetaGet(r.state, key) == value
    ensures forall other :: other != key ==> MetaGet(r.state, other) == MetaGet(s, other)
    ensures r.state.values == s.values && r.state.defaults == s.defaults
    ensures r.state.modifiers == s.modifiers && r.state.extensions == s.extensions
    ensures r.state.tags == s.tags
  {
    match value
    case None => Step(s, Read(MetaGet(s, key)))
    case Some(v) => Step(s.(meta := s.meta[key := v]), Fluent)
  }

  /** Entry `i` is the last non-null entry of `e` for its key. */
  predicate IsLastWrite(e: seq<(string, Option<string>)>, i: int)
    requires 0 <= i < |e|
  {
    e[i].1.Some? && forall j :: i < j < |e| && e[j].0 == e[i].0 ==> e[j].1.None?
  }

  /** Batch `meta($array)`: each entry in order, a null entry being a read; only meta changes. */
  function MetaAll(s: State, e: seq<(string, Option<string>)>): (t: State)
    decreases |e|
    ensures t.values == s.values && t.defaults == s.defaults
    ensures t.modifiers == s.modifiers && t.extensions == s.extensions
    ensures t.tags == s.tags
  {
    if |e| == 0 then s
    else Meta(MetaAll(s, e[..|e| - 1]), e[|e| - 1].0, e[|e| - 1].1).state
  }

  /**
   * Batch `meta` keeps the last non-null entry of each path, and a path
   * with only null entries keeps what it had.
   */
  lemma {:induction false} MetaAllWrites(s: State, e: seq<(string, Option<string>)>)
    decreases |e|
    ensures forall i :: 0 <= i < |e| && IsLastWrite(e, i) ==> MetaGet(MetaAll(s, e), e[i].0) == e[i].1
    ensures forall k :: (forall i :: 0 <= i < |e| && e[i].0 == k ==> e[i].1.None?) ==>
      MetaGet(MetaAll(s, e), k) == MetaGet(s, k)
  {
    if |e| > 0 {
      var init := e[..|e| - 1];
      var (k, v) := e[|e| - 1];
      MetaAllWrites(s, init);
      var t0 := MetaAll(s, init);
      var t := MetaAll(s, e);
      assert t == Meta(t0, k, v).state;
      forall i | 0 <= i < |e| && IsLastWrite(e, i)
        ensures MetaGet(t, e[i].0) == e[i].1
      {
        if i < |init| {
          assert init[i] == e[i];
          assert IsLastWrite(init, i);
        }
      }
      forall x | forall i :: 0 <= i < |e| && e[i].0 == x ==> e[i].1.None?
        ensures MetaGet(t, x) == MetaGet(s, x)
      {
        assert forall i :: 0 <= i < |init| && init[i].0 == x ==> init[i].1.None? by {
          forall i | 0 <= i < |init| && init[i].0 == x
            ensures init[i].1.None?
          {
            assert init[i] == e[i];
          }
        }
      }
    }
  }

  /** The meta path under which a Flipp template alias is configured. */
  function TemplateKey(alias: string): string {
    "flipp.templates." + alias
  }

  /** `flipp($alias, $template)` in configure mode: records the template id and nothing else. */
  function FlippConfigure(s: State, alias: string, template: string): (t: State)
    ensures MetaGet(t, TemplateKey(alias)) == Some(template)
    ensures forall other :: other != TemplateKey(alias) ==> MetaGet(t, other) == MetaGet(s, other)
    ensures Extensions(t) == Extensions(s)
    ensures t.extensions == s.extensions && t.tags == s.tags
    ensures t.values == s.values && t.defaults == s.defaults && t.modifiers == s.modifiers
  {
    assert forall n :: ViewKey(n) != TemplateKey(alias) by {
      forall n
        ensures ViewKey(n) != TemplateKey(alias)
      {
        assert ViewKey(n)[0] == 'e' && TemplateKey(alias)[0] == 'f';
      }
    }
    Meta(s, TemplateKey(alias), Some(template)).state
  }

  /**
   * The payload `flipp($alias)` signs when none is given: the unmodified
   * title and description.
   */
  function FlippDefaultPayload(s: State): (r: map<string, Option<string>>)
    ensures r.Keys == {"title", "description"}
    ensures HasValue(s, "title") ==> r["title"] == s.values["title"]
    ensures HasValue(s, "description") ==> r["description"] == s.values["description"]
    ensures forall k :: k in r ==> r[k] == Get(s.(modifiers := s.modifiers - {k}), k)
  {
    RawIsGetWithoutOwnModifier(s, "title");
    RawIsGetWithoutOwnModifier(s, "description");
    map["title" := Raw(s, "title"), "description" := Raw(s, "description")]
  }

  // ---------------------------------------------------------------------
  // Head tags
  // ---------------------------------------------------------------------

  /**
   * `hasRawTag($key)`: a tag is recorded (and not null) under `key`. The
   * store never holds a null tag, so this is membership in `tags()`.
   */
  predicate HasRawTag(s: State, key: string)
    ensures HasRawTag(s, key) <==> key in Tags(s)
  {
    key in s.tags
  }

  /** The tag key under which `tag($property, …)` records its markup. */
  function TagKey(property: string): string {
    "meta." + property
  }

  /** `hasTag($property)`: the raw tag under `meta.<property>` is recorded. */
  predicate HasTag(s: State, property: string)
    ensures HasTag(s, property) <==> TagKey(property) in Tags(s)
  {
    HasRawTag(s, TagKey(property))
  }

  /** `rawTag($key, $tag)`: records the markup, or the key itself when the markup is null. */
  function RawTag(s: State, key: string, tag: Option<string>): (t: State)
    ensures HasRawTag(t, key)
    ensures tag.Some? ==> t.tags[key] == tag.value
    ensures tag.None? ==> t.tags[key] == key
    ensures forall other :: other != key ==>
      (HasRawTag(t, other) <==> HasRawTag(s, other)) && (HasRawTag(s, other) ==> t.tags[other] == s.tags[other])
    ensures t.values == s.values && t.defaults == s.defaults && t.modifiers == s.modifiers
    ensures t.extensions == s.extensions && t.meta == s.meta
  {
    s.(tags := s.tags[key := if tag.Some? then tag.value else key])
  }

  /** The markup `tag()` renders. */
  function MetaTag(property: string, content: string): string {
    "<meta property=\"" + property + "\" content=\"" + content + "\" />"
  }

  /** `tag($property, $content)`: records a `<meta property=… content=… />` tag. */
  function Tag(s: State, property: string, content: string): (t: State)
    ensures HasTag(t, property)
    ensures t.tags[TagKey(property)] == MetaTag(property, content)
    ensures forall q :: q != property ==> (HasTag(t, q) <==> HasTag(s, q))
    ensures forall other :: other != TagKey(property) ==>
      (other in t.tags <==> other in s.tags) && (other in s.tags ==> t.tags[other] == s.tags[other])
    ensures t.values == s.values && t.defaults == s.defaults && t.modifiers == s.modifiers
    ensures t.extensions == s.extensions && t.meta == s.meta
  {
    assert forall q :: TagKey(q) == TagKey(property) ==> q == property by {
      forall q | TagKey(q) == TagKey(property) {
        TagKeyInjective(q, property);
      }
    }
    RawTag(s, TagKey(property), Some(MetaTag(property, content)))
  }

  lemma TagKeyInjective(p: string, q: string)
    requires TagKey(p) == TagKey(q)
    ensures p == q
  {
    assert p == TagKey(p)[5..];
  }

  /** The markup of `tag()` is its property, a double quote, then the rest. */
  lemma MetaTagShape(p: string, c: string)
    ensures MetaTag(p, c) == "<meta property=\"" + (p + ['"'] + (" content=\"" + c + "\" />"))
  {
    assert "\" content=\"" == ['"'] + " content=\"";
  }

  lemma CancelAround(a: string, x: string, y: string, b: string)
    requires a + x + b == a + y + b
    ensures x == y
  {
    assert x == (a + x + b)[|a|..|a| + |x|];
    assert y == (a + y + b)[|a|..|a| + |y|];
  }

  /**
   * The markup of `tag()` can be read back: for properties without a double
   * quote, equal markup means equal property and equal content.
   */
  lemma MetaTagDecodes(p1: string, c1: string, p2: string, c2: string)
    requires '"' !in p1 && '"' !in p2
    requires MetaTag(p1, c1) == MetaTag(p2, c2)
    ensures p1 == p2 && c1 == c2
  {
    MetaTagShape(p1, c1);
    MetaTagShape(p2, c2);
    var x1 := " content=\"" + c1 + "\" />";
    var x2 := " content=\"" + c2 + "\" />";
    CancelAround("<meta property=\"", p1 + ['"'] + x1, p2 + ['"'] + x2, []);
    JoinCancel(p1, x1, p2, x2, '"');
    CancelAround(" content=\"", c1, c2, "\" />");
  }

  /** `tags()`: the recorded head tags, keyed by what `rawTag` was given. */
  function Tags(s: State): (r: map<string, string>)
    ensures forall key :: key in r <==> key in s.tags
    ensures forall key :: key in r ==> r[key] == s.tags[key]
  {
    s.tags
  }

  /** A fresh store has no tags; `tag(p, c)` makes `hasTag(p)` true and puts the markup in `tags()`. */
  lemma TagLifecycle(property: string, content: string)
    ensures !HasTag(Init(), property)
    ensures HasTag(Tag(Init(), property, content), property)
    ensures Tags(Tag(Init(), property, content)) == map[TagKey(property) := MetaTag(property, content)]
  {
  }
}
