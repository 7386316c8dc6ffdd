/**
 * Completion of the arguments of a known command
 * (src/features/completion/argument.rs): inside the n-th curly group of a
 * generic command, suggest the values the linked components declare for
 * that command's n-th parameter.
 */
module Arguments {
  import opened Wrappers
  import opened Syntax
  import opened Cursor
  import opened Completion
  import opened Strings

  /** The component database's view of a package: its commands and their parameters. */
  datatype ComponentArgument = ComponentArgument(name: string, image: Option<string>)
  datatype ComponentParameter = ComponentParameter(arguments: seq<ComponentArgument>)
  datatype ComponentCommand = ComponentCommand(name: string, parameters: seq<ComponentParameter>)
  datatype Component = Component(commands: seq<ComponentCommand>)

  /** What the guards of `complete_arguments` resolve: the replacement range, the command name and the argument index. */
  datatype ArgumentSite = ArgumentSite(range: TextRange, commandName: string, index: nat)

  /** The range every item replaces: the word under the cursor, else the empty range at the offset. */
  function ReplacementRange(token: LatexToken, offset: nat): (r: TextRange)
    ensures token.token.tokenKind == Word ==> r == token.token.range
    ensures token.token.tokenKind != Word ==> r.start == offset && r.end == offset
  {
    if token.token.tokenKind == Word then token.token.range else EmptyRange(offset)
  }

  /** `CurlyGroup::cast(token.parent()).or_else(|| token.parent().parent().and_then(CurlyGroup::cast))`. */
  function EnclosingGroup(token: LatexToken): (g: Option<NodeView>)
    ensures g.Some? ==> IsNode(g.value.node, CurlyGroup)
    ensures g.Some? && !IsNode(token.ancestors[0], CurlyGroup) ==>
      |token.ancestors| > 1 && g.value == NodeView(token.ancestors[1], token.ancestors[2..])
    ensures IsNode(token.ancestors[0], CurlyGroup) ==> g == Some(NodeView(token.ancestors[0], token.ancestors[1..]))
    ensures !IsNode(token.ancestors[0], CurlyGroup) && |token.ancestors| > 1 && IsNode(token.ancestors[1], CurlyGroup) ==>
      g == Some(NodeView(token.ancestors[1], token.ancestors[2..]))
    ensures g.None? <==>
      !IsNode(token.ancestors[0], CurlyGroup) && !(|token.ancestors| > 1 && IsNode(token.ancestors[1], CurlyGroup))
  {
    var parent := token.ancestors[0];
    if IsNode(parent, CurlyGroup) then Some(NodeView(parent, token.ancestors[1..]))
    else if |token.ancestors| > 1 && IsNode(token.ancestors[1], CurlyGroup) then
      Some(NodeView(token.ancestors[1], token.ancestors[2..]))
    else None
  }

  /** `children().filter_map(CurlyGroup::cast)`. */
  function CurlyGroups(children: seq<Element>): (groups: seq<Element>)
    ensures forall g :: g in groups ==> IsNode(g, CurlyGroup) && g in children
    ensures forall c :: c in children && IsNode(c, CurlyGroup) ==> c in groups
  {
    if children == [] then []
    else (if IsNode(children[0], CurlyGroup) then [children[0]] else []) + CurlyGroups(children[1..])
  }

  /** The groups keep the children's order: filtering distributes over concatenation. */
  lemma {:induction false} CurlyGroupsAppend(a: seq<Element>, b: seq<Element>)
    ensures CurlyGroups(a + b) == CurlyGroups(a) + CurlyGroups(b)
  {
    if a == [] {
      assert a + b == b;
    } else {
      assert (a + b)[1..] == a[1..] + b;
      CurlyGroupsAppend(a[1..], b);
    }
  }

  /** A single child is kept exactly when it is a curly group. */
  lemma CurlyGroupsSingle(c: Element)
    ensures CurlyGroups([c]) == if IsNode(c, CurlyGroup) then [c] else []
  {
    assert [c][1..] == [];
  }

  /** `position(|g| g.text_range() == range)`: the first group with that range. */
  function RangePosition(groups: seq<Element>, range: TextRange): (r: Option<nat>)
    ensures r.Some? ==> r.value < |groups| && groups[r.value].range == range
    ensures r.Some? ==> forall j :: 0 <= j < r.value ==> groups[j].range != range
    ensures r.None? ==> forall j :: 0 <= j < |groups| ==> groups[j].range != range
  {
    if groups == [] then None
    else if groups[0].range == range then Some(0)
    else match RangePosition(groups[1..], range)
      case None => None
      case Some(i) => Some(i + 1)
  }

  /** `GenericCommand::name()`: the first generic-command-name token among the children. */
  function CommandName(children: seq<Element>): (name: Option<Element>)
    ensures name.Some? ==> name.value in children && name.value.Token? && name.value.tokenKind == GenericCommandName
    ensures name.None? ==> forall c :: c in children ==> !(c.Token? && c.tokenKind == GenericCommandName)
  {
    if children == [] then None
    else if children[0].Token? && children[0].tokenKind == GenericCommandName then Some(children[0])
    else CommandName(children[1..])
  }

  /** The name found is the first generic-command-name token: no child before it is one. */
  lemma {:induction false} CommandNameFirst(children: seq<Element>)
    ensures CommandName(children).Some? ==>
      exists i :: 0 <= i < |children| && children[i] == CommandName(children).value
        && forall j :: 0 <= j < i ==> !(children[j].Token? && children[j].tokenKind == GenericCommandName)
  {
    if children != [] && !(children[0].Token? && children[0].tokenKind == GenericCommandName) {
      CommandNameFirst(children[1..]);
      if CommandName(children).Some? {
        var i :| 0 <= i < |children[1..]| && children[1..][i] == CommandName(children).value
          && forall j :: 0 <= j < i ==> !(children[1..][j].Token? && children[1..][j].tokenKind == GenericCommandName);
        assert children[i + 1] == children[1..][i];
        forall j | 0 <= j < i + 1
          ensures !(children[j].Token? && children[j].tokenKind == GenericCommandName)
        {
          if j > 0 {
            assert children[j] == children[1..][j - 1];
          }
        }
      }
    }
  }

  /**
   * The guards of `complete_arguments` after the cancellation check: a LaTeX
   * token, a curly group at or above it that the cursor is inside, a generic
   * command as the group's parent, the group's index among the command's
   * curly groups by range, and the command's name without its backslash.
   */
  function ArgumentSiteAt(ctx: CursorContext): (s: Option<ArgumentSite>)
    ensures s.Some? ==> ctx.latexToken.Some?
    ensures s.Some? ==> s.value.range == ReplacementRange(ctx.latexToken.value, ctx.offset)
    ensures s.Some? ==>
      var g := EnclosingGroup(ctx.latexToken.value);
      && g.Some?
      && ctx.insideCurly(g.value)
      && Parent(g.value).Some?
      && IsNode(Parent(g.value).value, GenericCommand)
      && var groups := CurlyGroups(Parent(g.value).value.children);
      && s.value.index < |groups|
      && groups[s.value.index].range == g.value.node.range
      && (forall j :: 0 <= j < s.value.index ==> groups[j].range != g.value.node.range)
    ensures s.Some? ==>
      var command := Parent(EnclosingGroup(ctx.latexToken.value).value).value;
      && CommandName(command.children).Some?
      && s.value.commandName == DropEscape(CommandName(command.children).value.text)
    ensures (ctx.latexToken.Some? && EnclosingGroup(ctx.latexToken.value).Some?
             && !ctx.insideCurly(EnclosingGroup(ctx.latexToken.value).value)) ==> s.None?
    ensures (&& ctx.latexToken.Some?
             && var g := EnclosingGroup(ctx.latexToken.value);
             && g.Some?
             && ctx.insideCurly(g.value)
             && Parent(g.value).Some?
             && IsNode(Parent(g.value).value, GenericCommand)
             && var groups := CurlyGroups(Parent(g.value).value.children);
             && (exists j :: 0 <= j < |groups| && groups[j].range == g.value.node.range)
             && CommandName(Parent(g.value).value.children).Some?) ==> s.Some?
  {
    match ctx.latexToken
    case None => None
    case Some(token) =>
      var range := ReplacementRange(token, ctx.offset);
      match EnclosingGroup(token)
      case None => None
      case Some(group) =>
        if !ctx.insideCurly(group) then None
        else match Parent(group)
          case None => None
          case Some(command) =>
            if !IsNode(command, GenericCommand) then None
            else match RangePosition(CurlyGroups(command.children), group.node.range)
              case None => None
              case Some(index) =>
                match CommandName(command.children)
                case None => None
                case Some(name) => Some(ArgumentSite(range, DropEscape(name.text), index))
  }

  // ---------------------------------------------------------------------
  // The items pushed, as functions of the component database
  // ---------------------------------------------------------------------

  function ArgumentItem(range: TextRange, arg: ComponentArgument): InternalCompletionItem {
    InternalCompletionItem(range, Argument(arg.name, arg.image))
  }

  /** `for arg in &param.0`. */
  function ArgumentsItems(range: TextRange, args: seq<ComponentArgument>): seq<InternalCompletionItem> {
    if args == [] then []
    else ArgumentsItems(range, args[..|args| - 1]) + [ArgumentItem(range, args[|args| - 1])]
  }

  /** `parameters.iter().enumerate().filter(|(i, _)| *i == index)`. */
  function ParameterItems(range: TextRange, params: seq<ComponentParameter>, index: nat): seq<InternalCompletionItem> {
    if params == [] then []
    else
      ParameterItems(range, params[..|params| - 1], index)
      + (if |params| - 1 == index then ArgumentsItems(range, params[|params| - 1].arguments) else [])
  }

  /** `commands.iter().filter(|command| command.name == command_name)`. */
  function CommandItems(range: TextRange, commands: seq<ComponentCommand>, name: string, index: nat): seq<InternalCompletionItem> {
    if commands == [] then []
    else
      var last := commands[|commands| - 1];
      CommandItems(range, commands[..|commands| - 1], name, index)
      + (if last.name == name then ParameterItems(range, last.parameters, index) else [])
  }

  /** All items `complete_arguments` pushes once its guards pass. */
  function ArgumentItems(range: TextRange, components: seq<Component>, name: string, index: nat): seq<InternalCompletionItem> {
    if components == [] then []
    else
      ArgumentItems(range, components[..|components| - 1], name, index)
      + CommandItems(range, components[|components| - 1].commands, name, index)
  }

  /** One item per argument, in the parameter's order: a repeated argument gives repeated items. */
  lemma {:induction false} ArgumentsItemsAt(range: TextRange, args: seq<ComponentArgument>)
    ensures |ArgumentsItems(range, args)| == |args|
    ensures forall i :: 0 <= i < |args| ==> ArgumentsItems(range, args)[i] == ArgumentItem(range, args[i])
  {
    if args != [] {
      ArgumentsItemsAt(range, args[..|args| - 1]);
    }
  }

  /** The parameter filter picks exactly the parameter at `index`; past the last one it picks nothing. */
  lemma {:induction false} ParameterItemsAtIndex(range: TextRange, params: seq<ComponentParameter>, index: nat)
    ensures ParameterItems(range, params, index)
         == if index < |params| then ArgumentsItems(range, params[index].arguments) else []
  {
    if params != [] {
      var init := params[..|params| - 1];
      ParameterItemsAtIndex(range, init, index);
      if index < |init| {
        assert init[index] == params[index];
      }
    }
  }

  /** A declared argument `a` of a matching command gives an item. */
  ghost predicate Declares(components: seq<Component>, name: string, index: nat, a: ComponentArgument) {
    exists c, cmd :: c in components && cmd in c.commands && cmd.name == name
      && index < |cmd.parameters| && a in cmd.parameters[index].arguments
  }

  lemma {:induction false} ArgumentsItemsMembers(range: TextRange, args: seq<ComponentArgument>, item: InternalCompletionItem)
    ensures item in ArgumentsItems(range, args) <==> exists a :: a in args && item == ArgumentItem(range, a)
  {
    if args != [] {
      var init := args[..|args| - 1];
      ArgumentsItemsMembers(range, init, item);
      assert args == init + [args[|args| - 1]];
    }
  }

  lemma {:induction false} CommandItemsMembers(range: TextRange, commands: seq<ComponentCommand>, name: string, index: nat, item: InternalCompletionItem)
    ensures item in CommandItems(range, commands, name, index) <==>
      exists cmd, a :: cmd in commands && cmd.name == name && index < |cmd.parameters|
        && a in cmd.parameters[index].arguments && item == ArgumentItem(range, a)
  {
    if commands != [] {
      var init, last := commands[..|commands| - 1], commands[|commands| - 1];
      CommandItemsMembers(range, init, name, index, item);
      ParameterItemsAtIndex(range, last.parameters, index);
      if index < |last.parameters| {
        ArgumentsItemsMembers(range, last.parameters[index].arguments, item);
      }
      assert commands == init + [last];
    }
  }

  /**
   * An item is pushed exactly when some linked component declares a command
   * of that name whose parameter at the index lists the argument.
   */
  lemma {:induction false} ArgumentItemsMembers(range: TextRange, components: seq<Component>, name: string, index: nat, item: InternalCompletionItem)
    ensures item in ArgumentItems(range, components, name, index) <==>
      exists a :: Declares(components, name, index, a) && item == ArgumentItem(range, a)
  {
    if components != [] {
      var init, last := components[..|components| - 1], components[|components| - 1];
      ArgumentItemsMembers(range, init, name, index, item);
      CommandItemsMembers(range, last.commands, name, index, item);
      assert components == init + [last];
    }
  }

  /** Every pushed item replaces the same range. */
  /** Commands contribute in their order: the items of two runs of commands are those of the first, then the second. */
  lemma {:induction false} CommandItemsAppend(range: TextRange, a: seq<ComponentCommand>, b: seq<ComponentCommand>, name: string, index: nat)
    ensures CommandItems(range, a + b, name, index) == CommandItems(range, a, name, index) + CommandItems(range, b, name, index)
  {
    if b == [] {
      assert a + b == a;
    } else {
      assert (a + b)[..|a + b| - 1] == a + b[..|b| - 1];
      CommandItemsAppend(range, a, b[..|b| - 1], name, index);
    }
  }

  /** One command contributes the items of its parameter at the index when it has the wanted name, and nothing otherwise. */
  lemma CommandItemsSingle(range: TextRange, cmd: ComponentCommand, name: string, index: nat)
    ensures CommandItems(range, [cmd], name, index)
         == if cmd.name == name then ParameterItems(range, cmd.parameters, index) else []
  {
    assert [cmd][..0] == [];
  }

  /**
   * Components contribute in their order, each with all its items: an
   * argument two linked components declare is pushed twice.
   */
  lemma {:induction false} ArgumentItemsAppend(range: TextRange, a: seq<Component>, b: seq<Component>, name: string, index: nat)
    ensures ArgumentItems(range, a + b, name, index) == ArgumentItems(range, a, name, index) + ArgumentItems(range, b, name, index)
  {
    if b == [] {
      assert a + b == a;
    } else {
      assert (a + b)[..|a + b| - 1] == a + b[..|b| - 1];
      ArgumentItemsAppend(range, a, b[..|b| - 1], name, index);
    }
  }

  /** One component contributes the items of its commands. */
  lemma ArgumentItemsSingle(range: TextRange, c: Component, name: string, index: nat)
    ensures ArgumentItems(range, [c], name, index) == CommandItems(range, c.commands, name, index)
  {
    assert [c][..0] == [];
  }

  lemma ArgumentItemsSameRange(range: TextRange, components: seq<Component>, name: string, index: nat)
    ensures SameRange(ArgumentItems(range, components, name, index), range)
  {
    var items := ArgumentItems(range, components, name, index);
    forall i | 0 <= i < |items|
      ensures items[i].range == range
    {
      ArgumentItemsMembers(range, components, name, index, items[i]);
    }
  }

  /**
   * A cursor in a curly group past the last parameter of every command of
   * that name (the second group of a one-parameter command) gets no items.
   */
  lemma PastLastParameter(range: TextRange, components: seq<Component>, name: string, index: nat)
    requires forall c, cmd :: c in components && cmd in c.commands && cmd.name == name ==> |cmd.parameters| <= index
    ensures ArgumentItems(range, components, name, index) == []
  {
    var items := ArgumentItems(range, components, name, index);
    if items != [] {
      ArgumentItemsMembers(range, components, name, index, items[0]);
    }
  }

  // ---------------------------------------------------------------------
  // The provider
  // ---------------------------------------------------------------------

  /** `for arg in &param.0 { items.push(..) }`. */
  method PushArguments(range: TextRange, args: seq<ComponentArgument>, items: ItemBuffer)
    modifies items
    ensures items.items == old(items.items) + ArgumentsItems(range, args)
  {
    var l := 0;
    while l < |args|
      invariant 0 <= l <= |args|
      invariant items.items == old(items.items) + ArgumentsItems(range, args[..l])
    {
      assert args[..l + 1][..l] == args[..l];
      items.Push(ArgumentItem(range, args[l]));
      l := l + 1;
    }
    assert args[..l] == args;
  }

  /** The loop over the enumerated parameters, keeping the one at `index`. */
  method PushParameters(range: TextRange, params: seq<ComponentParameter>, index: nat, items: ItemBuffer)
    modifies items
    ensures items.items == old(items.items) + ParameterItems(range, params, index)
  {
    var k := 0;
    while k < |params|
      invariant 0 <= k <= |params|
      invariant items.items == old(items.items) + ParameterItems(range, params[..k], index)
    {
      assert params[..k + 1][..k] == params[..k];
      if k == index {
        PushArguments(range, params[k].arguments, items);
      }
      k := k + 1;
    }
    assert params[..k] == params;
  }

  /** The loop over a component's commands with the given name. */
  method PushCommands(range: TextRange, commands: seq<ComponentCommand>, name: string, index: nat, items: ItemBuffer)
    modifies items
    ensures items.items == old(items.items) + CommandItems(range, commands, name, index)
  {
    var j := 0;
    while j < |commands|
      invariant 0 <= j <= |commands|
      invariant items.items == old(items.items) + CommandItems(range, commands[..j], name, index)
    {
      assert commands[..j + 1][..j] == commands[..j];
      if commands[j].name == name {
        PushParameters(range, commands[j].parameters, index, items);
      }
      j := j + 1;
    }
    assert commands[..j] == commands;
  }

  /** The outer loop, over the linked components. */
  method PushComponents(range: TextRange, components: seq<Component>, name: string, index: nat, items: ItemBuffer)
    modifies items
    ensures items.items == old(items.items) + ArgumentItems(range, components, name, index)
  {
    var i := 0;
    while i < |components|
      invariant 0 <= i <= |components|
      invariant items.items == old(items.items) + ArgumentItems(range, components[..i], name, index)
    {
      assert components[..i + 1][..i] == components[..i];
      PushCommands(range, components[i].commands, name, index, items);
      i := i + 1;
    }
    assert components[..i] == components;
  }

  /**
   * `complete_arguments`: nothing when cancelled or when a guard fails;
   * otherwise the items of the linked components are appended, by
   * component, command, parameter and argument.
   */
  method CompleteArguments(ctx: CursorContext, components: seq<Component>, items: ItemBuffer, cancelled: bool)
    returns (completed: bool)
    modifies items
    ensures completed <==> !cancelled && ArgumentSiteAt(ctx).Some?
    ensures !completed ==> items.items == old(items.items)
    ensures completed ==>
      var site := ArgumentSiteAt(ctx).value;
      items.items == old(items.items) + ArgumentItems(site.range, components, site.commandName, site.index)
  {
    if cancelled {
      return false;
    }
    var site := ArgumentSiteAt(ctx);
    if site.None? {
      return false;
    }
    PushComponents(site.value.range, components, site.value.commandName, site.value.index, items);
    return true;
  }
}
