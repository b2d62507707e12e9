/**
  The built-in command table of src/lib/commands.ts: seventeen entries, each a name, the
  handler it runs and, for three of them, the key chords bound to it. Running a built-in
  handler is one of the handler methods of the Handlers module on the shared cursor.
 */
module Commands {
  import opened Wrappers
  import opened Host
  import opened TextCursor
  import opened Utils
  import Handlers

  /** The handlers the built-in table names; `Headline(n)` is `createHeadlineCommandHandler(n)`. */
  datatype BuiltInHandler =
    | Bold | Italic | Link | Image | UnorderedList | OrderedList
    | CodeBlock | CodeInline | Code | BlockQuotes | StrikeThrough
    | Headline(level: int)

  /** A command's handler: a built-in one, or a function the user supplied, known by an identity. */
  datatype Handler = BuiltIn(kind: BuiltInHandler) | Custom(id: nat)

  /** `shortcut`: one key chord as a string, or a list of them. */
  datatype Shortcut = Chord(keys: string) | Chords(list: seq<string>)

  /** `CommandConfig`: an absent optional field is `None`. */
  datatype CommandConfig = CommandConfig(
    name: string,
    handler: Handler,
    shortcut: Option<Shortcut>,
    shortcutPreventDefault: Option<bool>,
    enable: Option<bool>)

  /** A table entry as the array literal writes it: a name, a handler and maybe a shortcut. */
  function Entry(name: string, kind: BuiltInHandler, shortcut: Option<Shortcut>): (c: CommandConfig)
    ensures c.name == name && c.handler == BuiltIn(kind) && c.shortcut == shortcut
    ensures c.shortcutPreventDefault.None? && c.enable.None?
  {
    CommandConfig(name, BuiltIn(kind), shortcut, None, None)
  }

  /** `buildInCommands`, in the order of the array literal. */
  const BUILT_IN_COMMANDS: seq<CommandConfig> := [
    Entry("bold", Bold, Some(Chords(MetaCombination(["b"])))),
    Entry("italic", Italic, Some(Chords(MetaCombination(["i"])))),
    Entry("link", Link, None),
    Entry("image", Image, None),
    Entry("unordered-list", UnorderedList, None),
    Entry("ordered-list", OrderedList, None),
    Entry("code-block", CodeBlock, None),
    Entry("code-inline", CodeInline, None),
    Entry("code", Code, None),
    Entry("block-quotes", BlockQuotes, None),
    Entry("strike-through", StrikeThrough, Some(Chords(MetaCombination(["shift", "x"]) + ["alt+shift+f5"]))),
    Entry("h1", Headline(1), None),
    Entry("h2", Headline(2), None),
    Entry("h3", Headline(3), None),
    Entry("h4", Headline(4), None),
    Entry("h5", Headline(5), None),
    Entry("h6", Headline(6), None)
  ]

  /** The names of a list of commands, in order. */
  function Names(commands: seq<CommandConfig>): (names: seq<string>)
    ensures |names| == |commands|
    ensures forall k :: 0 <= k < |commands| ==> names[k] == commands[k].name
  {
    seq(|commands|, k requires 0 <= k < |commands| => commands[k].name)
  }

  /** The built-in names, which `BUILT_IN_COMMANDS.includes` tests against. */
  const BUILT_IN_NAMES: seq<string> := Names(BUILT_IN_COMMANDS)

  /** The table holds seventeen entries, in a fixed order. */
  lemma BuiltInOrder()
    ensures |BUILT_IN_COMMANDS| == 17
    ensures BUILT_IN_NAMES == [
      "bold", "italic", "link", "image", "unordered-list", "ordered-list", "code-block",
      "code-inline", "code", "block-quotes", "strike-through", "h1", "h2", "h3", "h4", "h5", "h6"]
  {
  }

  /** No two entries share a name, so looking a built-in name up finds one entry. */
  lemma BuiltInNamesDistinct()
    ensures forall i, j :: 0 <= i < j < |BUILT_IN_NAMES| ==> BUILT_IN_NAMES[i] != BUILT_IN_NAMES[j]
  {
    BuiltInOrder();
  }

  /**
    `buildInCommands.findIndex(x => x.name === name)`: the first entry with that name; the
    names being distinct, it is the one entry with it.
   */
  function BuiltInIndex(name: string): (i: nat)
    requires name in BUILT_IN_NAMES
    ensures i < |BUILT_IN_COMMANDS| && BUILT_IN_COMMANDS[i].name == name
    ensures forall j :: 0 <= j < |BUILT_IN_COMMANDS| && BUILT_IN_COMMANDS[j].name == name ==> j == i
  {
    BuiltInNamesDistinct();
    FirstIndex(BUILT_IN_NAMES, name)
  }

  /** The first index of `x` in `s`. */
  function FirstIndex(s: seq<string>, x: string): (i: nat)
    requires x in s
    ensures i < |s| && s[i] == x
    ensures forall j :: 0 <= j < i ==> s[j] != x
  {
    if s[0] == x then 0 else 1 + FirstIndex(s[1..], x)
  }

  /** bold and italic are bound to command or control with `b` and with `i`. */
  lemma BoldItalicShortcuts()
    ensures BUILT_IN_COMMANDS[0].shortcut == Some(Chords(["command+b", "ctrl+b"]))
    ensures BUILT_IN_COMMANDS[1].shortcut == Some(Chords(["command+i", "ctrl+i"]))
  {
    assert BUILT_IN_COMMANDS[0].shortcut == Some(Chords(MetaCombination(["b"])));
    assert BUILT_IN_COMMANDS[1].shortcut == Some(Chords(MetaCombination(["i"])));
    MetaCombinationOf(["b"], "b");
    MetaCombinationOf(["i"], "i");
    assert "command+" + "b" == "command+b" && "ctrl+" + "b" == "ctrl+b";
    assert "command+" + "i" == "command+i" && "ctrl+" + "i" == "ctrl+i";
  }

  /** The chords of `metaCombination` for keys whose join is `joined`. */
  lemma MetaCombinationOf(keys: seq<string>, joined: string)
    requires Strings.Join(keys, '+') == joined
    ensures MetaCombination(keys) == ["command+" + joined, "ctrl+" + joined]
  {
  }

  /** strike-through is bound to three chords: command+shift+x, ctrl+shift+x and alt+shift+f5. */
  lemma StrikeThroughShortcuts()
    ensures BUILT_IN_COMMANDS[10].name == "strike-through"
    ensures BUILT_IN_COMMANDS[10].shortcut == Some(Chords(["command+shift+x", "ctrl+shift+x", "alt+shift+f5"]))
  {
    assert Strings.Join(["shift", "x"], '+') == "shift+x" by {
      assert ["shift", "x"][1..] == ["x"];
    }
    MetaCombinationOf(["shift", "x"], "shift+x");
    assert "command+" + "shift+x" == "command+shift+x" && "ctrl+" + "shift+x" == "ctrl+shift+x";
    assert ["command+shift+x", "ctrl+shift+x"] + ["alt+shift+f5"] == ["command+shift+x", "ctrl+shift+x", "alt+shift+f5"];
    assert BUILT_IN_COMMANDS[10].shortcut == Some(Chords(MetaCombination(["shift", "x"]) + ["alt+shift+f5"]));
  }

  /** Only bold, italic and strike-through carry a shortcut. */
  lemma OnlyThreeShortcuts()
    ensures forall i :: 0 <= i < |BUILT_IN_COMMANDS| ==>
      (BUILT_IN_COMMANDS[i].shortcut.Some? <==> i == 0 || i == 1 || i == 10)
  {
  }

  /** Entry `hN` runs the headline handler of level `N`, for `N` from 1 to 6. */
  lemma HeadlineEntries()
    ensures forall n :: 1 <= n <= 6 ==>
      && BUILT_IN_COMMANDS[10 + n].name == ['h', "0123456789"[n]]
      && BUILT_IN_COMMANDS[10 + n].handler == BuiltIn(Headline(n))
  {
  }

  /** Every built-in entry runs a built-in handler; none of them is disabled. */
  lemma BuiltInHandlersOnly()
    ensures forall i :: 0 <= i < |BUILT_IN_COMMANDS| ==>
      BUILT_IN_COMMANDS[i].handler.BuiltIn? && BUILT_IN_COMMANDS[i].enable.None?
  {
  }

  // ---------------------------------------------------------------------------------------------
  // running a built-in handler

  /** The state a built-in handler leaves the buffer in. */
  function BuiltInApplied(kind: BuiltInHandler, b: Buffer, options: Handlers.Options): Buffer
    requires ValidBuffer(b)
  {
    match kind
    case Bold => Handlers.WrapApplied(Handlers.Bold, b, options)
    case Italic => Handlers.WrapApplied(Handlers.Italic, b, options)
    case Link => Handlers.Linked(b, false, options.linkTextPlaceholder, options.linkUrlPlaceholder)
    case Image => Handlers.Linked(b, true, options.imageTextPlaceholder, options.imageUrlPlaceholder)
    case UnorderedList => Handlers.UnorderedListed(b, options.preferredUnorderedListSyntax)
    case OrderedList => Handlers.OrderedListed(b)
    case CodeBlock => Handlers.WrapApplied(Handlers.CodeBlock, b, options)
    case CodeInline => Handlers.WrapApplied(Handlers.CodeInline, b, options)
    case Code => Handlers.WrapApplied(Handlers.CodeCommand(b), b, options)
    case BlockQuotes => Handlers.BlockQuoted(b, options.blockQuotesPlaceholder)
    case StrikeThrough => Handlers.WrapApplied(Handlers.StrikeThrough, b, options)
    case Headline(level) =>
      Handlers.Headlined(b, level, Handlers.HeadlinePlaceholderFor(options.headlinePlaceholder, level))
  }

  /** `command.handler({ textarea, keyEvent, options, cursor })` for a built-in handler. */
  method RunBuiltIn(kind: BuiltInHandler, cursor: Cursor, options: Handlers.Options)
    requires cursor.element.Valid()
    modifies cursor.element
    ensures cursor.element.Valid()
    ensures cursor.element.State() == BuiltInApplied(kind, old(cursor.element.State()), options)
  {
    match kind
    case Bold => Handlers.BoldCommandHandler(cursor, options);
    case Italic => Handlers.ItalicCommandHandler(cursor, options);
    case Link => Handlers.LinkCommandHandler(cursor, options);
    case Image => Handlers.ImageCommandHandler(cursor, options);
    case UnorderedList => Handlers.UnorderedListCommandHandler(cursor, options);
    case OrderedList => Handlers.OrderedListCommandHandler(cursor);
    case CodeBlock => Handlers.CodeBlockCommandHandler(cursor, options);
    case CodeInline => Handlers.CodeInlineCommandHandler(cursor, options);
    case Code => Handlers.CodeCommandHandler(cursor, options);
    case BlockQuotes => Handlers.BlockQuotesCommandHandler(cursor, options);
    case StrikeThrough => Handlers.StrikeThroughCommandHandler(cursor, options);
    case Headline(level) => Handlers.HeadlineCommandHandler(cursor, options, level);
  }
}
