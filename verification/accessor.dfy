/**
 * The dynamic accessor of `SEOManager` (`__call`): a method named after an
 * extension configures that extension; any other name is turned into a key
 * and registers a default or modifier, writes a value, or reads the key.
 * The camelCase-to-dotted conversion (`Str::snake($name, '.')`) is passed
 * in as `snake`.
 */
module Accessor {
  import opened Optional
  import opened DottedKeys
  import opened TagStore

  /** A positional argument: a flag (for extensions) or a string (for keys). */
  datatype Arg = Flag(flag: bool) | Text(text: string)

  /** The arguments of an accessor call; a null named argument is the same as a missing one. */
  datatype CallArgs = CallArgs(
    first: Option<Arg>,
    default: Option<string>,
    modifier: Option<Modifier>,
    modifyAlias: Option<Modifier>)

  /**
   * The outcome of an accessor call. The class is declared with strict
   * types, so a string where `extension` expects a bool, or a bool where
   * `set` expects a string, raises a `TypeError`; the store keeps whatever
   * the call registered before the failing call.
   */
  datatype CallResult = Returned(state: State, reply: Reply) | TypeError(state: State)

  /** The call registers or writes something, and so hands back the store. */
  predicate Mutates(args: CallArgs) {
    args.first.Some? || args.default.Some? || args.modifier.Some? || args.modifyAlias.Some?
  }

  /** The default and modifier registrations of a key accessor, `modify` after `modifier`. */
  function Register(s: State, key: Key, args: CallArgs): (t: State)
    ensures args.default.Some? ==> t.defaults == s.defaults[key := args.default]
    ensures args.default.None? ==> t.defaults == s.defaults
    ensures args.modifyAlias.Some? ==> t.modifiers == s.modifiers[key := args.modifyAlias.value]
    ensures args.modifyAlias.None? && args.modifier.Some? ==> t.modifiers == s.modifiers[key := args.modifier.value]
    ensures args.modifyAlias.None? && args.modifier.None? ==> t.modifiers == s.modifiers
    ensures t.values == s.values && t.extensions == s.extensions
    ensures t.meta == s.meta && t.tags == s.tags
  {
    var withDefault := if args.default.Some? then s.(defaults := s.defaults[key := args.default]) else s;
    var withModifier :=
      if args.modifier.Some? then withDefault.(modifiers := withDefault.modifiers[key := args.modifier.value])
      else withDefault;
    if args.modifyAlias.Some? then withModifier.(modifiers := withModifier.modifiers[key := args.modifyAlias.value])
    else withModifier
  }

  /** `__call($name, $arguments)`. */
  function Call(s: State, snake: string -> string, name: string, args: CallArgs): (r: CallResult)
    ensures r.TypeError? <==>
      (name in s.extensions && args.first.Some? && args.first.value.Text?) ||
      (name !in s.extensions && args.first.Some? && args.first.value.Flag?)
    ensures name in s.extensions && r.Returned? ==>
      r.reply == Fluent && r.state.extensions == s.extensions[name := (args.first.Some? ==> args.first.value.flag)]
      && r.state.values == s.values && r.state.defaults == s.defaults && r.state.meta == s.meta
      && r.state.modifiers == s.modifiers && r.state.tags == s.tags
    ensures name in s.extensions && r.TypeError? ==> r.state == s
    ensures name !in s.extensions && r.TypeError? ==> r.state == Register(s, snake(name), args)
    ensures name !in s.extensions && r.Returned? ==>
      (r.reply == Fluent <==> Mutates(args))
    ensures name !in s.extensions && r.Returned? && !Mutates(args) ==>
      r.state == s && r.reply == Read(Get(s, snake(name)))
    ensures name !in s.extensions && r.Returned? && args.first.Some? ==>
      snake(name) in r.state.values && r.state.values[snake(name)] == Some(args.first.value.text)
    ensures name !in s.extensions && r.Returned? && args.first.Some? ==>
      r.state == Assign(Register(s, snake(name), args), snake(name), Some(args.first.value.text))
    ensures name !in s.extensions && r.Returned? && args.first.None? && Mutates(args) ==>
      r.state == Register(s, snake(name), args)
  {
    if name in s.extensions then
      match args.first
      case None => Returned(Extension(s, name, true, None), Fluent)
      case Some(Flag(b)) => Returned(Extension(s, name, b, None), Fluent)
      case Some(Text(_)) => TypeError(s)
    else
      var key := snake(name);
      var registered := Register(s, key, args);
      match args.first
      case Some(Flag(_)) => TypeError(registered)
      case Some(Text(v)) => Returned(Set(registered, key, Some(v)).state, Fluent)
      case None =>
        if Mutates(args) then Returned(registered, Fluent)
        else Returned(s, Read(Get(s, key)))
  }

  /** A call with no arguments at all. */
  function NoArgs(): CallArgs {
    CallArgs(None, None, None, None)
  }

  /**
   * Registering a default through the accessor and then reading through it
   * yields the default while the key holds no explicit value.
   */
  lemma DefaultThenRead(s: State, snake: string -> string, name: string, d: string)
    requires name !in s.extensions
    requires !HasValue(s, snake(name))
    ensures Call(s, snake, name, CallArgs(None, Some(d), None, None)).Returned?
    ensures Call(Call(s, snake, name, CallArgs(None, Some(d), None, None)).state, snake, name, NoArgs())
      == Returned(Call(s, snake, name, CallArgs(None, Some(d), None, None)).state, Read(Some(d)))
  {
  }

  /**
   * Writing through the accessor hands back the store, and a later read
   * through it yields the written value passed through the key's modifier.
   */
  lemma WriteThenRead(s: State, snake: string -> string, name: string, v: string)
    requires name !in s.extensions
    requires HasDot(snake(name)) ==> Before(snake(name)) != name
    ensures Call(s, snake, name, CallArgs(Some(Text(v)), None, None, None)).Returned?
    ensures Call(s, snake, name, CallArgs(Some(Text(v)), None, None, None)).reply == Fluent
    ensures snake(name) !in s.modifiers ==>
      Call(Call(s, snake, name, CallArgs(Some(Text(v)), None, None, None)).state, snake, name, NoArgs()).reply
        == Read(Some(v))
    ensures snake(name) in s.modifiers ==>
      Call(Call(s, snake, name, CallArgs(Some(Text(v)), None, None, None)).state, snake, name, NoArgs()).reply
        == Read(Some(s.modifiers[snake(name)](v)))
  {
    var t := Call(s, snake, name, CallArgs(Some(Text(v)), None, None, None)).state;
    assert name !in t.extensions;
  }

  /** When both are given, `modify` is the modifier that ends up registered. */
  lemma ModifyOverridesModifier(s: State, snake: string -> string, name: string, f: Modifier, g: Modifier, v: string)
    requires name !in s.extensions
    ensures Call(s, snake, name, CallArgs(Some(Text(v)), None, Some(f), Some(g))).Returned?
    ensures Call(s, snake, name, CallArgs(Some(Text(v)), None, Some(f), Some(g))).state.modifiers[snake(name)] == g
    ensures Get(Call(s, snake, name, CallArgs(Some(Text(v)), None, Some(f), Some(g))).state, snake(name)) == Some(g(v))
  {
  }

  /** Naming an extension with no argument switches it on. */
  lemma ExtensionAccessorEnables(s: State, snake: string -> string, name: string)
    requires name in s.extensions
    ensures Call(s, snake, name, NoArgs()).Returned?
    ensures name in Extensions(Call(s, snake, name, NoArgs()).state)
  {
  }
}
