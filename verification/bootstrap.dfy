/**
  src/lib/bootstrap.ts: the command list a textarea gets (the built-in table merged with the
  user's commands), the options (the defaults overridden by the user's), the extensions the
  options switch on, and the `trigger` and `dispose` functions handed back.
 */
module Bootstrap {
  import opened Wrappers
  import opened Strings
  import opened Host
  import opened TextCursor
  import opened Commands
  import Handlers

  /** A thrown `TypeError` and its message. */
  datatype TypeError = TypeError(message: string)

  /**
    A command as the user passes it. `handler` is `None` when it is missing or is not a
    function: the merge treats both alike.
   */
  datatype Command = Command(
    name: string,
    handler: Option<Handler>,
    shortcut: Option<Shortcut>,
    shortcutPreventDefault: Option<bool>,
    enable: Option<bool>)

  const NO_HANDLER_MESSAGE := "Custom command should have a handler function"

  // ---------------------------------------------------------------------------------------------
  // mergedCommandsList

  /** A user command the merge throws on: not a built-in name, and no handler function. */
  predicate Invalid(c: Command) {
    c.name !in BUILT_IN_NAMES && c.handler.None?
  }

  /** Every user command has a built-in name or a handler function. */
  predicate AllValid(custom: seq<Command>) {
    forall k :: 0 <= k < |custom| ==> !Invalid(custom[k])
  }

  /** The entry that takes the place of a built-in one: its name and handler, the user's `enable` and `shortcut`. */
  function Override(entry: CommandConfig, c: Command): CommandConfig {
    CommandConfig(entry.name, entry.handler, c.shortcut, None, c.enable)
  }

  /** A user command pushed as it is. */
  function Appended(c: Command): CommandConfig
    requires c.handler.Some?
  {
    CommandConfig(c.name, c.handler.value, c.shortcut, c.shortcutPreventDefault, c.enable)
  }

  /** One step of the `forEach`: override the built-in entry of that name, or push a valid command. */
  function MergeStep(commands: seq<CommandConfig>, c: Command): Result<seq<CommandConfig>, TypeError>
    requires |commands| >= |BUILT_IN_COMMANDS|
  {
    if c.name in BUILT_IN_NAMES then
      var i := BuiltInIndex(c.name);
      Ok(commands[i := Override(commands[i], c)])
    else if c.handler.None? then Err(TypeError(NO_HANDLER_MESSAGE))
    else Ok(commands + [Appended(c)])
  }

  /** `mergedCommandsList(customCommands)`: the steps from a copy of the built-in table, in order. */
  function Merged(custom: seq<Command>): (r: Result<seq<CommandConfig>, TypeError>)
    ensures r.Ok? ==> |r.value| >= |BUILT_IN_COMMANDS|
  {
    if custom == [] then Ok(BUILT_IN_COMMANDS)
    else
      match Merged(custom[..|custom| - 1])
      case Err(e) => Err(e)
      case Ok(commands) => MergeStep(commands, custom[|custom| - 1])
  }

  /** `mergedCommandsList`: the array copy updated in place, one user command at a time. */
  method MergedCommandsList(customCommands: seq<Command>) returns (r: Result<seq<CommandConfig>, TypeError>)
    ensures r == Merged(customCommands)
  {
    var commands := BUILT_IN_COMMANDS;
    for n := 0 to |customCommands|
      invariant Merged(customCommands[..n]) == Ok(commands)
    {
      assert customCommands[..n + 1][..n] == customCommands[..n];
      var command := customCommands[n];
      if command.name in BUILT_IN_NAMES {
        var commandIndex := BuiltInIndex(command.name);
        var overrides := CommandConfig(commands[commandIndex].name, commands[commandIndex].handler,
          command.shortcut, None, command.enable);
        commands := commands[commandIndex := overrides];
      } else {
        if command.handler.None? {
          MergedFails(customCommands);
          return Err(TypeError(NO_HANDLER_MESSAGE));
        }
        commands := commands + [Appended(command)];
      }
    }
    assert customCommands[..|customCommands|] == customCommands;
    return Ok(commands);
  }

  /** The last user command of that name, if there is one. */
  function LastNamed(custom: seq<Command>, name: string): (r: Option<Command>)
    ensures r.Some? <==> exists k :: 0 <= k < |custom| && custom[k].name == name
    ensures r.Some? ==> r.value.name == name
    ensures r.Some? ==>
      (exists k :: 0 <= k < |custom| && custom[k] == r.value && forall j :: k < j < |custom| ==> custom[j].name != name)
  {
    if custom == [] then None
    else if custom[|custom| - 1].name == name then Some(custom[|custom| - 1])
    else
      var r := LastNamed(custom[..|custom| - 1], name);
      assert forall k :: 0 <= k < |custom| - 1 ==> custom[..|custom| - 1][k] == custom[k];
      r
  }

  /** The built-in table with each entry overridden by the last user command of its name. */
  function Overridden(custom: seq<Command>): (r: seq<CommandConfig>)
    ensures |r| == |BUILT_IN_COMMANDS|
  {
    seq(|BUILT_IN_COMMANDS|, i requires 0 <= i < |BUILT_IN_COMMANDS| =>
      match LastNamed(custom, BUILT_IN_COMMANDS[i].name)
      case None => BUILT_IN_COMMANDS[i]
      case Some(c) => Override(BUILT_IN_COMMANDS[i], c))
  }

  /** The user commands with names that are not built in, in order. */
  function Customs(custom: seq<Command>): seq<CommandConfig>
    requires AllValid(custom)
  {
    if custom == [] then []
    else
      var last := custom[|custom| - 1];
      Customs(custom[..|custom| - 1]) + (if last.name in BUILT_IN_NAMES then [] else [Appended(last)])
  }

  /**
    The merge throws exactly when some user command has neither a built-in name nor a
    handler function, and then with the custom-command message.
   */
  lemma {:induction false} MergedFails(custom: seq<Command>)
    ensures Merged(custom).Err? <==> !AllValid(custom)
    ensures Merged(custom).Err? ==> Merged(custom).error == TypeError(NO_HANDLER_MESSAGE)
  {
    if custom != [] {
      var init, last := custom[..|custom| - 1], custom[|custom| - 1];
      MergedFails(init);
      assert AllValid(custom) <==> AllValid(init) && !Invalid(last) by {
        assert forall k :: 0 <= k < |init| ==> init[k] == custom[k];
      }
    }
  }

  /** The message of reading `includes` off the undefined `BUILT_IN_COMMANDS` import. */
  const UNDEFINED_INCLUDES_MESSAGE := "Cannot read properties of undefined (reading 'includes')"

  /**
    `mergedCommandsList` as written: `types.ts` exports no `BUILT_IN_COMMANDS`, so the name is
    undefined and the first user command's `includes` test throws. Only an empty list merges.
   */
  function MergedAsWritten(custom: seq<Command>): (r: Result<seq<CommandConfig>, TypeError>)
    ensures r.Ok? <==> custom == []
    ensures r.Ok? ==> r.value == BUILT_IN_COMMANDS
  {
    if custom == [] then Ok(BUILT_IN_COMMANDS) else Err(TypeError(UNDEFINED_INCLUDES_MESSAGE))
  }

  /**
    The as-written merge and the modelled one part on every non-empty list of valid user
    commands: the first throws, the second merges.
   */
  lemma MergedAsWrittenThrows(custom: seq<Command>)
    requires custom != [] && AllValid(custom)
    ensures MergedAsWritten(custom).Err? && Merged(custom).Ok?
  {
    MergedFails(custom);
  }

  /**
    A merge that does not throw keeps the built-in entries in their places, with their names
    and handlers; each takes `enable` and `shortcut` from the last user command of its name,
    when there is one. The other user commands follow, in their order.
   */
  lemma {:induction false} MergedShape(custom: seq<Command>)
    requires AllValid(custom)
    ensures Merged(custom) == Ok(Overridden(custom) + Customs(custom))
  {
    if custom == [] {
      NothingOverridden();
      assert Customs(custom) == [];
      assert Overridden(custom) + [] == BUILT_IN_COMMANDS;
    } else {
      var init, last := custom[..|custom| - 1], custom[|custom| - 1];
      assert custom == init + [last];
      assert AllValid(init) by {
        assert forall k :: 0 <= k < |init| ==> init[k] == custom[k];
      }
      MergedShape(init);
      if last.name in BUILT_IN_NAMES {
        ShapeOverride(init, last);
      } else {
        ShapeAppend(init, last);
      }
    }
  }

  /** Without user commands the table is the built-in one. */
  lemma NothingOverridden()
    ensures Overridden([]) == BUILT_IN_COMMANDS
  {
    forall i | 0 <= i < |BUILT_IN_COMMANDS|
      ensures Overridden([])[i] == BUILT_IN_COMMANDS[i]
    {
      assert LastNamed([], BUILT_IN_COMMANDS[i].name).None?;
    }
  }

  /** The merge step for a user command with a built-in name. */
  lemma ShapeOverride(init: seq<Command>, last: Command)
    requires AllValid(init) && last.name in BUILT_IN_NAMES
    requires Merged(init) == Ok(Overridden(init) + Customs(init))
    ensures AllValid(init + [last])
    ensures Merged(init + [last]) == Ok(Overridden(init + [last]) + Customs(init + [last]))
  {
    var custom := init + [last];
    assert custom[..|custom| - 1] == init;
    var o, c := Overridden(init), Customs(init);
    var j := BuiltInIndex(last.name);
    assert Merged(custom) == MergeStep(o + c, last);
    assert Customs(custom) == c;
    assert (o + c)[j := Override((o + c)[j], last)] == o[j := Override(o[j], last)] + c;
    OverrideLast(init, last, j);
  }

  /** The merge step for a user command with another name. */
  lemma ShapeAppend(init: seq<Command>, last: Command)
    requires AllValid(init) && last.name !in BUILT_IN_NAMES && last.handler.Some?
    requires Merged(init) == Ok(Overridden(init) + Customs(init))
    ensures AllValid(init + [last])
    ensures Merged(init + [last]) == Ok(Overridden(init + [last]) + Customs(init + [last]))
  {
    var custom := init + [last];
    assert custom[..|custom| - 1] == init;
    var o, c := Overridden(init), Customs(init);
    assert Merged(custom) == MergeStep(o + c, last);
    assert Customs(custom) == c + [Appended(last)];
    assert (o + c) + [Appended(last)] == o + (c + [Appended(last)]);
    AppendKeepsOverrides(init, last);
  }

  /** A user command with built-in name `j` replaces entry `j` and no other. */
  lemma OverrideLast(init: seq<Command>, last: Command, j: nat)
    requires j < |BUILT_IN_COMMANDS| && BUILT_IN_COMMANDS[j].name == last.name
    ensures Overridden(init + [last]) == Overridden(init)[j := Override(Overridden(init)[j], last)]
  {
    var custom := init + [last];
    assert custom[..|custom| - 1] == init;
    var before, after := Overridden(init), Overridden(custom);
    forall i | 0 <= i < |BUILT_IN_COMMANDS|
      ensures after[i] == before[j := Override(before[j], last)][i]
    {
      if i != j {
        BuiltInNamesDistinct();
        assert BUILT_IN_NAMES[i] != BUILT_IN_NAMES[j];
        assert LastNamed(custom, BUILT_IN_COMMANDS[i].name) == LastNamed(init, BUILT_IN_COMMANDS[i].name);
      }
    }
  }

  /** A user command without a built-in name leaves the built-in entries alone. */
  lemma AppendKeepsOverrides(init: seq<Command>, last: Command)
    requires last.name !in BUILT_IN_NAMES
    ensures Overridden(init + [last]) == Overridden(init)
  {
    var custom := init + [last];
    assert custom[..|custom| - 1] == init;
    forall i | 0 <= i < |BUILT_IN_COMMANDS|
      ensures LastNamed(custom, BUILT_IN_COMMANDS[i].name) == LastNamed(init, BUILT_IN_COMMANDS[i].name)
    {
      assert BUILT_IN_NAMES[i] == BUILT_IN_COMMANDS[i].name;
    }
  }

  /** Whatever the user passes, the first seventeen entries keep the built-in names and handlers, in order. */
  lemma MergedKeepsBuiltIns(custom: seq<Command>)
    requires AllValid(custom)
    ensures Merged(custom).Ok?
    ensures var commands := Merged(custom).value;
      forall i :: 0 <= i < |BUILT_IN_COMMANDS| ==>
        commands[i].name == BUILT_IN_COMMANDS[i].name && commands[i].handler == BUILT_IN_COMMANDS[i].handler
  {
    MergedShape(custom);
  }

  // ---------------------------------------------------------------------------------------------
  // trigger

  /** What `trigger` does once it has found the command: nothing, or run its handler once. */
  datatype Invocation = Disabled | Invoked(handler: Handler)

  /** The message `trigger` throws for an unknown name. */
  function UndefinedMessage(name: string): string {
    "Command with name \"" + name + "\" is not defined"
  }

  /** `trigger(name)`: the last command of that name; disabled only when `enable` is `false`. */
  function Triggered(commands: seq<CommandConfig>, name: string): (r: Result<Invocation, TypeError>)
    ensures r.Err? <==> name !in Names(commands)
  {
    var i := LastIndexOf(Names(commands), name);
    if i == -1 then Err(TypeError(UndefinedMessage(name)))
    else if commands[i].enable == Some(false) then Ok(Disabled)
    else Ok(Invoked(commands[i].handler))
  }

  /** Looking a name up from the end: the index found is the last holding that name. */
  lemma TriggerFindsLast(commands: seq<CommandConfig>, name: string, k: nat)
    requires k < |commands| && commands[k].name == name
    requires forall j :: k < j < |commands| ==> commands[j].name != name
    ensures Triggered(commands, name)
      == if commands[k].enable == Some(false) then Ok(Disabled) else Ok(Invoked(commands[k].handler))
  {
    var names := Names(commands);
    assert names[k] == name;
  }

  /**
    After a merge that does not throw, triggering a built-in name runs the built-in handler,
    whatever the user passed, unless the last user command of that name disables it.
   */
  lemma TriggerBuiltIn(custom: seq<Command>, i: nat)
    requires AllValid(custom) && i < |BUILT_IN_COMMANDS|
    ensures Merged(custom).Ok?
    ensures var name, over := BUILT_IN_COMMANDS[i].name, LastNamed(custom, BUILT_IN_COMMANDS[i].name);
      Triggered(Merged(custom).value, name)
        == if over.Some? && over.value.enable == Some(false) then Ok(Disabled)
           else Ok(Invoked(BUILT_IN_COMMANDS[i].handler))
  {
    MergedShape(custom);
    var name := BUILT_IN_COMMANDS[i].name;
    var commands := Merged(custom).value;
    forall j | i < j < |commands|
      ensures commands[j].name != name
    {
      if j < |BUILT_IN_COMMANDS| {
        BuiltInNamesDistinct();
        assert BUILT_IN_NAMES[i] != BUILT_IN_NAMES[j];
      } else {
        CustomsNotBuiltIn(custom, j - |BUILT_IN_COMMANDS|);
        assert BUILT_IN_NAMES[i] == name;
      }
    }
    BuiltInHandlersOnly();
    TriggerFindsLast(commands, name, i);
  }

  /** No appended command has a built-in name. */
  lemma {:induction false} CustomsNotBuiltIn(custom: seq<Command>, k: nat)
    requires AllValid(custom) && k < |Customs(custom)|
    ensures Customs(custom)[k].name !in BUILT_IN_NAMES
  {
    var init, last := custom[..|custom| - 1], custom[|custom| - 1];
    assert AllValid(init) by {
      assert forall j :: 0 <= j < |init| ==> init[j] == custom[j];
    }
    if k < |Customs(init)| {
      CustomsNotBuiltIn(init, k);
    }
  }

  /**
    After a merge that does not throw, triggering a name that is not built in runs the
    handler of the last user command of that name, unless that command disables it, and
    throws when no user command has it.
   */
  lemma {:induction false} TriggerCustom(custom: seq<Command>, name: string)
    requires AllValid(custom) && name !in BUILT_IN_NAMES
    ensures Merged(custom).Ok?
    ensures var over := LastNamed(custom, name);
      Triggered(Merged(custom).value, name)
        == if over.None? then Err(TypeError(UndefinedMessage(name)))
           else if over.value.enable == Some(false) then Ok(Disabled)
           else Ok(Invoked(over.value.handler.value))
  {
    MergedShape(custom);
    if LastNamed(custom, name).None? {
      TriggerMissing(custom, name);
    } else {
      TriggerLast(custom, name);
    }
  }

  /** A name that neither the table nor any user command has is undefined. */
  lemma TriggerMissing(custom: seq<Command>, name: string)
    requires AllValid(custom) && name !in BUILT_IN_NAMES && LastNamed(custom, name).None?
    requires Merged(custom) == Ok(Overridden(custom) + Customs(custom))
    ensures name !in Names(Merged(custom).value)
  {
    var commands := Merged(custom).value;
    forall k | 0 <= k < |commands|
      ensures commands[k].name != name
    {
      if k < |BUILT_IN_COMMANDS| {
        assert BUILT_IN_NAMES[k] == commands[k].name;
      } else {
        CustomsNamed(custom, name, k - |BUILT_IN_COMMANDS|);
      }
    }
  }

  /** A name that only user commands have finds the last of them. */
  lemma TriggerLast(custom: seq<Command>, name: string)
    requires AllValid(custom) && name !in BUILT_IN_NAMES && LastNamed(custom, name).Some?
    requires Merged(custom) == Ok(Overridden(custom) + Customs(custom))
    ensures var commands, c := Merged(custom).value, LastNamed(custom, name).value;
      Triggered(commands, name)
        == if c.enable == Some(false) then Ok(Disabled) else Ok(Invoked(c.handler.value))
  {
    var commands := Merged(custom).value;
    var k := CustomsLast(custom, name);
    var at := |BUILT_IN_COMMANDS| + k;
    forall j | at < j < |commands|
      ensures commands[j].name != name
    {
    }
    TriggerFindsLast(commands, name, at);
  }

  /** Every appended command comes from a user command of the same name. */
  lemma {:induction false} CustomsNamed(custom: seq<Command>, name: string, k: nat)
    requires AllValid(custom) && k < |Customs(custom)|
    requires LastNamed(custom, name).None?
    ensures Customs(custom)[k].name != name
  {
    var init, last := custom[..|custom| - 1], custom[|custom| - 1];
    assert AllValid(init) by {
      assert forall j :: 0 <= j < |init| ==> init[j] == custom[j];
    }
    assert LastNamed(init, name).None?;
    if k < |Customs(init)| {
      CustomsNamed(init, name, k);
    }
  }

  /** The last appended command of a name that is not built in is the last user command of it. */
  lemma {:induction false} CustomsLast(custom: seq<Command>, name: string) returns (k: nat)
    requires AllValid(custom) && name !in BUILT_IN_NAMES && LastNamed(custom, name).Some?
    ensures k < |Customs(custom)| && Customs(custom)[k] == Appended(LastNamed(custom, name).value)
    ensures forall j :: k < j < |Customs(custom)| ==> Customs(custom)[j].name != name
  {
    var init, last := custom[..|custom| - 1], custom[|custom| - 1];
    assert AllValid(init) by {
      assert forall j :: 0 <= j < |init| ==> init[j] == custom[j];
    }
    if last.name == name {
      k := |Customs(init)|;
    } else {
      k := CustomsLast(init, name);
    }
  }

  // ---------------------------------------------------------------------------------------------
  // options

  /** An option's value, with JavaScript's truthiness. */
  datatype OptionValue = Undefined | Null | Bool(b: bool) | Text(s: string) | Number(n: int) | Function(id: nat)
  {
    predicate Truthy() {
      match this
      case Undefined => false
      case Null => false
      case Bool(b) => b
      case Text(s) => s != ""
      case Number(n) => n != 0
      case Function(_) => true
    }
  }

  /** `defaultTextareaMarkdownOptions`; the headline placeholder is a function. */
  const DEFAULT_OPTIONS: map<string, OptionValue> := map[
    "useListTabulation" := Bool(true),
    "unorderedListSyntax" := Text("-"),
    "boldSyntax" := Text("**"),
    "italicSyntax" := Text("*"),
    "boldPlaceholder" := Text("bold"),
    "italicPlaceholder" := Text("italic"),
    "strikeThroughPlaceholder" := Text("strike through"),
    "codeInlinePlaceholder" := Text("code"),
    "codeBlockPlaceholder" := Text("code block"),
    "orderedListPlaceholder" := Text("ordered list"),
    "unorderedListPlaceholder" := Text("unordered list"),
    "headlinePlaceholder" := Function(0),
    "blockQuotesPlaceholder" := Text("quote")
  ]

  /** `{ ...defaults, ...user }`: every key of either; the user's value wins, even an `undefined` one. */
  function MergeOptions(defaults: map<string, OptionValue>, user: map<string, OptionValue>): (r: map<string, OptionValue>)
    ensures r.Keys == defaults.Keys + user.Keys
    ensures forall key :: key in user ==> r[key] == user[key]
    ensures forall key :: key in defaults && key !in user ==> r[key] == defaults[key]
  {
    defaults + user
  }

  /** Reading a missing key gives `undefined`. */
  function Get(options: map<string, OptionValue>, key: string): OptionValue {
    if key in options then options[key] else Undefined
  }

  /**
    Keys the built-in handlers read (src/lib/handlers.ts) that the defaults do not define: the
    defaults name the syntaxes `boldSyntax`, `italicSyntax` and `unorderedListSyntax` instead, and
    have no link or image placeholder.
   */
  const HANDLER_ONLY_KEYS: set<string> := {
    "preferredBoldSyntax", "preferredItalicSyntax", "preferredUnorderedListSyntax",
    "linkTextPlaceholder", "linkUrlPlaceholder", "imageTextPlaceholder", "imageUrlPlaceholder"}

  /** `null` or `undefined`: reading a property of either throws. */
  predicate Nullish(v: OptionValue) {
    v.Undefined? || v.Null?
  }

  /**
    Whether the built-in handler `kind`, handed the merged options, throws as written: `wrap`
    reads `prefix.length` off the bold or italic syntax, and `escapeRegExp` calls `replace` on
    the unordered-list syntax, which only a string has.
   */
  predicate HandlerThrowsAsWritten(kind: BuiltInHandler, options: map<string, OptionValue>) {
    match kind
    case Bold => Nullish(Get(options, "preferredBoldSyntax"))
    case Italic => Nullish(Get(options, "preferredItalicSyntax"))
    case UnorderedList => !Get(options, "preferredUnorderedListSyntax").Text?
    case _ => false
  }

  /**
    As written, whatever the handlers read under these keys comes from the user's options alone:
    the bold, italic and unordered-list handlers throw exactly when the user leaves their syntax
    unset (or sets it to a value without the property read), and the link and image
    placeholders are `undefined` unless the user sets them.
   */
  lemma HandlerOptionsAsWritten(user: map<string, OptionValue>)
    ensures HANDLER_ONLY_KEYS !! DEFAULT_OPTIONS.Keys
    ensures forall key :: key in HANDLER_ONLY_KEYS ==> Get(MergeOptions(DEFAULT_OPTIONS, user), key) == Get(user, key)
    ensures HandlerThrowsAsWritten(Bold, MergeOptions(DEFAULT_OPTIONS, user)) <==> Nullish(Get(user, "preferredBoldSyntax"))
    ensures HandlerThrowsAsWritten(Italic, MergeOptions(DEFAULT_OPTIONS, user)) <==> Nullish(Get(user, "preferredItalicSyntax"))
    ensures HandlerThrowsAsWritten(UnorderedList, MergeOptions(DEFAULT_OPTIONS, user))
      <==> !Get(user, "preferredUnorderedListSyntax").Text?
  {
  }

  /** With the default configuration, bold, italic and unordered-list throw as written. */
  lemma DefaultConfigHandlersThrow()
    ensures forall kind :: kind in {Bold, Italic, UnorderedList} ==> HandlerThrowsAsWritten(kind, MergeOptions(DEFAULT_OPTIONS, map[]))
    ensures !HandlerThrowsAsWritten(StrikeThrough, MergeOptions(DEFAULT_OPTIONS, map[]))
  {
    HandlerOptionsAsWritten(map[]);
  }

  // ---------------------------------------------------------------------------------------------
  // extensions

  datatype Extension = Indent | LinkPaste | PrefixWrapping | ProperLineRemoveBehavior

  /** The extensions in the order of the `extensions` array. */
  const EXTENSIONS: seq<Extension> := [Indent, LinkPaste, PrefixWrapping, ProperLineRemoveBehavior]

  /** The option that switches each extension on. */
  function EnableKey(e: Extension): string {
    match e
    case Indent => "enableIndentExtension"
    case LinkPaste => "enableLinkPasteExtension"
    case PrefixWrapping => "enablePrefixWrappingExtension"
    case ProperLineRemoveBehavior => "enableProperLineRemoveBehaviorExtension"
  }

  /** The name under which the bootstrap module imports each extension. */
  function ImportedName(e: Extension): string {
    match e
    case Indent => "indentExtension"
    case LinkPaste => "linkPasteExtension"
    case PrefixWrapping => "prefixWrappingExtension"
    case ProperLineRemoveBehavior => "properLineRemoveBehaviorExtension"
  }

  /** The names the extensions module exports. */
  const EXPORTED: set<string> := {"linkPasteExtension", "intentExtension", "listWrappingExtension", "properLineRemoveBehaviorExtension"}

  /**
    Building the `extensions` array: an extension whose option is falsy is skipped; an enabled
    one is called, and an import that names nothing the extensions module exports is
    `undefined`, so calling it throws. The result lists the extensions installed before any
    throw, and the error.
   */
  function Installed(exts: seq<Extension>, options: map<string, OptionValue>): (r: (seq<Extension>, Option<TypeError>))
  {
    if exts == [] then ([], None)
    else
      var e := exts[0];
      var rest := Installed(exts[1..], options);
      if !Get(options, EnableKey(e)).Truthy() then rest
      else if ImportedName(e) !in EXPORTED then ([], Some(TypeError(ImportedName(e) + " is not a function")))
      else ([e] + rest.0, rest.1)
  }

  /** An extension is installed exactly when its option is truthy, unless installing throws. */
  lemma {:induction false} InstalledIffEnabled(exts: seq<Extension>, options: map<string, OptionValue>, e: Extension)
    ensures Installed(exts, options).1.None? ==>
      (e in Installed(exts, options).0 <==> e in exts && Get(options, EnableKey(e)).Truthy())
    ensures Installed(exts, options).1.None? <==>
      forall k :: 0 <= k < |exts| && Get(options, EnableKey(exts[k])).Truthy() ==> ImportedName(exts[k]) in EXPORTED
  {
    if exts != [] {
      InstalledIffEnabled(exts[1..], options, e);
      assert forall k :: 1 <= k < |exts| ==> exts[k] == exts[1..][k - 1];
      if !(forall k :: 0 <= k < |exts| && Get(options, EnableKey(exts[k])).Truthy() ==> ImportedName(exts[k]) in EXPORTED) {
        var k :| 0 <= k < |exts| && Get(options, EnableKey(exts[k])).Truthy() && ImportedName(exts[k]) !in EXPORTED;
        if k > 0 {
          assert exts[1..][k - 1] == exts[k];
        }
      }
    }
  }

  /**
    The indent and list-wrapping extensions are imported under names the extensions module
    does not export: switching either on makes the bootstrap throw.
   */
  lemma ImportNamesAsWritten(options: map<string, OptionValue>)
    requires Get(options, EnableKey(Indent)).Truthy() || Get(options, EnableKey(PrefixWrapping)).Truthy()
    ensures Installed(EXTENSIONS, options).1.Some?
  {
    InstalledIffEnabled(EXTENSIONS, options, Indent);
    if Get(options, EnableKey(Indent)).Truthy() {
      assert EXTENSIONS[0] == Indent;
    } else {
      assert EXTENSIONS[2] == PrefixWrapping;
    }
  }

  /** The defaults switch no extension on: without user options nothing is installed. */
  lemma DefaultsInstallNothing()
    ensures Installed(EXTENSIONS, MergeOptions(DEFAULT_OPTIONS, map[])) == ([], None)
  {
    var options := MergeOptions(DEFAULT_OPTIONS, map[]);
    NoEnableDefaults();
    assert options.Keys == DEFAULT_OPTIONS.Keys;
    NothingEnabled(EXTENSIONS, options);
  }

  /** No default option switches an extension on. */
  lemma NoEnableDefaults()
    ensures forall e: Extension :: EnableKey(e) !in DEFAULT_OPTIONS.Keys
  {
    forall e: Extension
      ensures EnableKey(e) !in DEFAULT_OPTIONS.Keys
    {
      assert EnableKey(e)[..6] == "enable";
    }
  }

  /** With every extension switched off, nothing is installed and nothing throws. */
  lemma {:induction false} NothingEnabled(exts: seq<Extension>, options: map<string, OptionValue>)
    requires forall k :: 0 <= k < |exts| ==> !Get(options, EnableKey(exts[k])).Truthy()
    ensures Installed(exts, options) == ([], None)
  {
    if exts != [] {
      assert forall k :: 0 <= k < |exts| - 1 ==> exts[1..][k] == exts[k + 1];
      NothingEnabled(exts[1..], options);
    }
  }

  // ---------------------------------------------------------------------------------------------
  // bootstrapTextareaMarkdown

  /** A command whose `shortcut` is truthy gets a key binding. */
  predicate HasShortcut(c: CommandConfig) {
    match c.shortcut
    case None => false
    case Some(Chord(keys)) => keys != ""
    case Some(Chords(_)) => true
  }

  /** The names of the commands bound to keys, in list order. */
  function BoundNames(commands: seq<CommandConfig>): (names: seq<string>)
    ensures forall name :: name in names <==> exists k :: 0 <= k < |commands| && HasShortcut(commands[k]) && commands[k].name == name
  {
    if commands == [] then []
    else
      var last := commands[|commands| - 1];
      var init := BoundNames(commands[..|commands| - 1]);
      assert forall k :: 0 <= k < |commands| - 1 ==> commands[..|commands| - 1][k] == commands[k];
      init + (if HasShortcut(last) then [last.name] else [])
  }

  /** What `bootstrapTextareaMarkdown` hands back, with the listeners it attached. */
  class Session {
    const commands: seq<CommandConfig>
    const options: map<string, OptionValue>
    /** The options the handlers read, by the names they read them under. */
    const handlerOptions: Handlers.Options
    const cursor: Cursor
    /** Names of the commands bound on this session's key binder. */
    var bindings: seq<string>
    /** The extensions installed; `dispose` calls their cleanups and keeps the array. */
    var extensions: seq<Extension>

    constructor (commands: seq<CommandConfig>, options: map<string, OptionValue>, handlerOptions: Handlers.Options,
                 cursor: Cursor, bindings: seq<string>, extensions: seq<Extension>)
      ensures this.commands == commands && this.options == options && this.handlerOptions == handlerOptions
      ensures this.cursor == cursor && this.bindings == bindings && this.extensions == extensions
    {
      this.commands := commands;
      this.options := options;
      this.handlerOptions := handlerOptions;
      this.cursor := cursor;
      this.bindings := bindings;
      this.extensions := extensions;
    }

    /**
      `trigger(name)`: throws for an unknown name, does nothing for a disabled command, and
      otherwise runs the handler once. A built-in handler edits the textarea through the cursor;
      what a user handler does is not modelled.
     */
    method Trigger(name: string) returns (r: Result<Invocation, TypeError>)
      requires cursor.element.Valid()
      modifies cursor.element
      ensures cursor.element.Valid()
      ensures r == Triggered(commands, name)
      ensures cursor.element.State() == match r
        case Ok(Invoked(BuiltIn(kind))) => BuiltInApplied(kind, old(cursor.element.State()), handlerOptions)
        case _ => old(cursor.element.State())
    {
      var command := Utils.FindLast(commands, (c: CommandConfig, _: nat, _: seq<CommandConfig>) => c.name == name);
      if command.None? {
        assert name !in Names(commands);
        return Err(TypeError(UndefinedMessage(name)));
      }
      ghost var k :| 0 <= k < |commands| && command.value == commands[k] && commands[k].name == name
        && forall j :: k < j < |commands| ==> commands[j].name != name;
      TriggerFindsLast(commands, name, k);
      if command.value.enable == Some(false) {
        return Ok(Disabled);
      }
      r := Ok(Invoked(command.value.handler));
      if command.value.handler.BuiltIn? {
        RunBuiltIn(command.value.handler.kind, cursor, handlerOptions);
      }
    }

    /**
      `dispose()`: resets the key binder and calls every installed extension's cleanup once,
      in installation order; `cleaned` lists the cleanups called. The `extensions` array is a
      constant that is never emptied, so disposing again calls every cleanup again.
     */
    method Dispose() returns (cleaned: seq<Extension>)
      modifies this
      ensures cleaned == extensions
      ensures bindings == [] && extensions == old(extensions)
    {
      bindings := [];
      cleaned := [];
      for n := 0 to |extensions|
        invariant cleaned == extensions[..n] && bindings == []
      {
        cleaned := cleaned + [extensions[n]];
        assert extensions[..n + 1] == extensions[..n] + [extensions[n]];
      }
      assert extensions[..|extensions|] == extensions;
    }

    /** Disposing twice calls every cleanup twice, in the same order each time. */
    method DisposeTwice() returns (first: seq<Extension>, second: seq<Extension>)
      modifies this
      ensures first == second == old(extensions)
      ensures bindings == [] && extensions == old(extensions)
    {
      first := Dispose();
      second := Dispose();
    }
  }

  /**
    `bootstrapTextareaMarkdown(textarea, config)`: merges the commands (which may throw), merges
    the options, binds the commands that have shortcuts, and installs the enabled extensions
    (which may throw).
   */
  method BootstrapTextareaMarkdown(cursor: Cursor, customCommands: seq<Command>, userOptions: map<string, OptionValue>,
                                   handlerOptions: Handlers.Options)
    returns (r: Result<Session, TypeError>)
    ensures Merged(customCommands).Err? ==> r == Err(Merged(customCommands).error)
    ensures Merged(customCommands).Ok? ==> var options := MergeOptions(DEFAULT_OPTIONS, userOptions);
      if Installed(EXTENSIONS, options).1.Some? then r == Err(Installed(EXTENSIONS, options).1.value)
      else
        && r.Ok? && fresh(r.value)
        && r.value.commands == Merged(customCommands).value && r.value.options == options
        && r.value.handlerOptions == handlerOptions && r.value.cursor == cursor
        && r.value.bindings == BoundNames(Merged(customCommands).value)
        && r.value.extensions == Installed(EXTENSIONS, options).0
  {
    var merged := MergedCommandsList(customCommands);
    if merged.Err? {
      return Err(merged.error);
    }
    var commands := merged.value;
    var options := MergeOptions(DEFAULT_OPTIONS, userOptions);
    var bindings := BindShortcuts(commands);
    var installed := InstallExtensions(EXTENSIONS, options);
    if installed.Err? {
      return Err(installed.error);
    }
    var extensions := installed.value;
    var session := new Session(commands, options, handlerOptions, cursor, bindings, extensions);
    return Ok(session);
  }

  /** `commands.forEach(...)`: each command with a truthy shortcut is bound, in list order. */
  method BindShortcuts(commands: seq<CommandConfig>) returns (bindings: seq<string>)
    ensures bindings == BoundNames(commands)
  {
    bindings := [];
    for n := 0 to |commands|
      invariant bindings == BoundNames(commands[..n])
    {
      assert commands[..n + 1][..n] == commands[..n];
      if HasShortcut(commands[n]) {
        bindings := bindings + [commands[n].name];
      }
    }
    assert commands[..|commands|] == commands;
  }

  /** Building the `extensions` array: each enabled extension is called in turn, which may throw. */
  method InstallExtensions(exts: seq<Extension>, options: map<string, OptionValue>) returns (r: Result<seq<Extension>, TypeError>)
    ensures Installed(exts, options).1.Some? ==> r == Err(Installed(exts, options).1.value)
    ensures Installed(exts, options).1.None? ==> r == Ok(Installed(exts, options).0)
  {
    var extensions: seq<Extension> := [];
    assert exts[0..] == exts;
    for n := 0 to |exts|
      invariant Installed(exts, options).0 == extensions + Installed(exts[n..], options).0
      invariant Installed(exts, options).1 == Installed(exts[n..], options).1
    {
      var extension := exts[n];
      assert exts[n..][1..] == exts[n + 1..];
      if Get(options, EnableKey(extension)).Truthy() {
        if ImportedName(extension) !in EXPORTED {
          return Err(TypeError(ImportedName(extension) + " is not a function"));
        }
        extensions := extensions + [extension];
      }
    }
    assert exts[|exts|..] == [];
    assert extensions + [] == extensions;
    return Ok(extensions);
  }
}
