/**
 * Completion of command symbols (src/completion/latex/command_symbol.rs):
 * every symbol of the symbol database that belongs to the kernel, or to a
 * component related to the request's documents, becomes an item.
 */
module CommandSymbols {
  import opened Wrappers

  /** An entry of the symbol database: a command, the component it comes from (none for the kernel), its image. */
  datatype Symbol = Symbol(command: string, component: Option<string>, image: string)

  /** A related component, known by the files it consists of. */
  datatype RelatedComponent = RelatedComponent(files: seq<string>)

  /** `LatexComponentId`. */
  datatype ComponentId = Kernel | User(names: seq<string>)

  /** What `factory::create_command_symbol` is given. */
  datatype SymbolItem = SymbolItem(command: string, component: ComponentId, image: string)

  /** `components.iter().any(|c| c.files.contains(&component))`. */
  function Provides(components: seq<RelatedComponent>, file: string): (b: bool)
    ensures b <==> exists i :: 0 <= i < |components| && file in components[i].files
  {
    if components == [] then false
    else file in components[0].files || Provides(components[1..], file)
  }

  /** The item one symbol gives, if any. */
  function ItemOf(symbol: Symbol, components: seq<RelatedComponent>): (r: Option<SymbolItem>)
    ensures symbol.component.None? ==> r == Some(SymbolItem(symbol.command, Kernel, symbol.image))
    ensures symbol.component.Some? ==>
      (r.Some? <==> exists i :: 0 <= i < |components| && symbol.component.value in components[i].files)
    ensures symbol.component.Some? && r.Some? ==>
      r.value == SymbolItem(symbol.command, User([symbol.component.value]), symbol.image)
  {
    match symbol.component
    case None => Some(SymbolItem(symbol.command, Kernel, symbol.image))
    case Some(file) =>
      if Provides(components, file) then Some(SymbolItem(symbol.command, User([file]), symbol.image)) else None
  }

  /** The items of a database prefix, in database order. */
  function SymbolItems(db: seq<Symbol>, components: seq<RelatedComponent>): (r: seq<SymbolItem>)
    ensures |r| <= |db|
  {
    if db == [] then []
    else
      SymbolItems(db[..|db| - 1], components)
      + match ItemOf(db[|db| - 1], components) case None => [] case Some(item) => [item]
  }

  /** The items of a database split in two are those of its halves, in the same order. */
  /** One symbol contributes exactly the item `ItemOf` gives it, or nothing. */
  lemma SymbolItemsSingle(s: Symbol, components: seq<RelatedComponent>)
    ensures SymbolItems([s], components) == match ItemOf(s, components) case None => [] case Some(item) => [item]
  {
    assert [s][..0] == [];
  }

  lemma {:induction false} SymbolItemsAppend(a: seq<Symbol>, b: seq<Symbol>, components: seq<RelatedComponent>)
    ensures SymbolItems(a + b, components) == SymbolItems(a, components) + SymbolItems(b, components)
  {
    if b != [] {
      var init := b[..|b| - 1];
      assert (a + b)[..|a + b| - 1] == a + init;
      SymbolItemsAppend(a, init, components);
    } else {
      assert a + b == a;
    }
  }

  /** A kernel symbol is always offered, with the kernel id. */
  lemma KernelSymbolEmitted(db: seq<Symbol>, components: seq<RelatedComponent>, k: nat)
    requires k < |db| && db[k].component.None?
    ensures SymbolItem(db[k].command, Kernel, db[k].image) in SymbolItems(db, components)
  {
    assert db == db[..k] + [db[k]] + db[k + 1..];
    SymbolItemsAppend(db[..k] + [db[k]], db[k + 1..], components);
    SymbolItemsAppend(db[..k], [db[k]], components);
    assert SymbolItems([db[k]], components) == [SymbolItem(db[k].command, Kernel, db[k].image)];
  }

  /** A symbol of a component is offered, tagged with that component, exactly when a related component provides it. */
  lemma {:induction false} ComponentSymbolItems(db: seq<Symbol>, components: seq<RelatedComponent>, command: string, file: string, image: string)
    ensures SymbolItem(command, User([file]), image) in SymbolItems(db, components) <==>
      Symbol(command, Some(file), image) in db
      && exists i :: 0 <= i < |components| && file in components[i].files
  {
    if db != [] {
      var init, last := db[..|db| - 1], db[|db| - 1];
      ComponentSymbolItems(init, components, command, file, image);
      assert db == init + [last];
    }
  }

  /**
   * The loop of `LatexCommandSymbolCompletionProvider::execute`: the items
   * of the database's symbols for the related components.
   */
  method CommandSymbolItems(db: seq<Symbol>, components: seq<RelatedComponent>) returns (items: seq<SymbolItem>)
    ensures items == SymbolItems(db, components)
  {
    items := [];
    var i := 0;
    while i < |db|
      invariant 0 <= i <= |db|
      invariant items == SymbolItems(db[..i], components)
    {
      assert db[..i + 1][..i] == db[..i];
      var symbol := db[i];
      match symbol.component {
        case Some(component) =>
          if Provides(components, component) {
            items := items + [SymbolItem(symbol.command, User([component]), symbol.image)];
          }
        case None =>
          items := items + [SymbolItem(symbol.command, Kernel, symbol.image)];
      }
      i := i + 1;
    }
    assert db[..i] == db;
  }
}
