/** The texts of the flow language as trees: maps, lists and scalars with everything that
    stands between them, and what they mean. */
module DslTrees {
  import opened StoreModel
  import opened DslText
  import opened DslPlaces
  import opened DslGaps
  import opened DslBlocks
  import opened DslScalars

  /** What can be written: strings in either quote, unquoted values, lists, and maps with their
      fields in some order. Entries and fields have their own text in front, lists and maps
      their own text before the closing bracket. */
  datatype Tree =
    | Quoted(quote: char, text: string)
    | Bare(text: string)
    | Arr(items: seq<Entry>, close: string)
    | Obj(fields: seq<Field>, close: string)

  datatype Entry = Entry(lead: string, tree: Tree)

  /** What stands before the colon is anything without a colon, behind it are blanks. */
  datatype Field = Field(lead: string, key: string, before: string, after: string, tree: Tree)

  function Size(t: Tree): nat {
    match t
    case Quoted(_, _) => 1
    case Bare(_) => 1
    case Arr(items, _) => 1 + ItemsSize(items)
    case Obj(fields, _) => 1 + FieldsSize(fields)
  }

  function ItemsSize(items: seq<Entry>): nat {
    if items == [] then 0 else 1 + Size(items[0].tree) + ItemsSize(items[1..])
  }

  function FieldsSize(fields: seq<Field>): nat {
    if fields == [] then 0 else 1 + Size(fields[0].tree) + FieldsSize(fields[1..])
  }

  // ---------------------------------------------------------------------------
  // Printing
  // ---------------------------------------------------------------------------

  function Print(t: Tree): string
    decreases Size(t)
  {
    match t
    case Quoted(quote, text) => [quote] + (text + [quote])
    case Bare(text) => text
    case Arr(items, close) => "[" + (PrintItems(items) + (close + "]"))
    case Obj(fields, close) => "{" + (PrintFields(fields) + close + "}")
  }

  function PrintItems(items: seq<Entry>): string
    decreases ItemsSize(items)
  {
    if items == [] then "" else items[0].lead + (Print(items[0].tree) + PrintItems(items[1..]))
  }

  function PrintFields(fields: seq<Field>): string
    decreases FieldsSize(fields)
  {
    if fields == [] then "" else fields[0].lead + PrintCore(fields)
  }

  /** The fields without what stands before the first key. */
  function PrintCore(fields: seq<Field>): string
    requires fields != []
    decreases FieldsSize(fields), 0
  {
    Head(fields[0]) + (Print(fields[0].tree) + PrintFields(fields[1..]))
  }

  /** A field up to its value. */
  function Head(f: Field): string {
    f.key + (f.before + (":" + f.after))
  }

  /** What stands between the braces of a map. */
  function Body(fields: seq<Field>, close: string): string {
    PrintFields(fields) + close
  }

  // ---------------------------------------------------------------------------
  // What can be printed
  // ---------------------------------------------------------------------------

  predicate SeparatorText(p: string) {
    forall k :: 0 <= k < |p| ==> InGap(Separating, p[k])
  }

  /** A name up to the first colon, space or line break. */
  predicate FieldKey(key: string) {
    && key != "" && Tight(key) && key[0] != ',' && !CommentAt(key, 0)
    && forall k :: 0 <= k < |key| ==> key[k] != ':' && key[k] != ' ' && key[k] != '\n'
  }

  predicate InName(c: char) {
    'a' <= c <= 'z' || 'A' <= c <= 'Z' || '0' <= c <= '9' || c == '_'
  }

  predicate KeyText(key: string) {
    key != "" && forall k :: 0 <= k < |key| ==> InName(key[k])
  }

  predicate ColonText(before: string, after: string) {
    && (before != "" ==> before[0] == ' ' || before[0] == '\n') && (forall k :: 0 <= k < |before| ==> before[k] != ':')
    && forall k :: 0 <= k < |after| ==> after[k] == ' ' || after[k] == '\t'
  }

  /** Behind an unquoted value there must be a comma or a line break, with nothing but spaces
      in front of it; before a closing bracket spaces will do. */
  predicate DelimiterText(t: Tree, p: string, more: bool) {
    t.Bare? ==> var e := Find(p, 0, NotInline); if e < |p| then p[e] == ',' || p[e] == '\n' else !more
  }

  /** What stands behind the first item. */
  function NextLead(items: seq<Entry>, close: string): string
    requires items != []
  {
    if |items| > 1 then items[1].lead else close
  }

  function NextFieldLead(fields: seq<Field>, close: string): string
    requires fields != []
  {
    if |fields| > 1 then fields[1].lead else close
  }

  predicate Shaped(t: Tree)
    decreases Size(t)
  {
    match t
    case Quoted(quote, text) => (quote == '"' || quote == '\'') && RawText(text, quote)
    case Bare(text) => BareText(text)
    case Arr(items, close) => ItemsShaped(items, close)
    case Obj(fields, close) => FieldsShaped(fields, close)
  }

  predicate ItemsShaped(items: seq<Entry>, close: string)
    decreases ItemsSize(items)
  {
    if items == [] then SeparatorText(close)
    else
      && SeparatorText(items[0].lead) && Shaped(items[0].tree)
      && DelimiterText(items[0].tree, NextLead(items, close), |items| > 1)
      && ItemsShaped(items[1..], close)
  }

  predicate FieldsShaped(fields: seq<Field>, close: string)
    decreases FieldsSize(fields)
  {
    if fields == [] then Skippable(Separating, close, false)
    else
      var f := fields[0];
      && Skippable(Separating, f.lead, true) && FieldKey(f.key) && ColonText(f.before, f.after) && Shaped(f.tree)
      && DelimiterText(f.tree, NextFieldLead(fields, close), |fields| > 1)
      && FieldsShaped(fields[1..], close)
  }

  /** Every map inside closes at its own brace, for the reader of nested maps. */
  predicate Closed(t: Tree)
    decreases Size(t)
  {
    match t
    case Arr(items, _) => ItemsClosed(items)
    case Obj(fields, close) => FieldsClosed(fields) && EnclosedText(Nested, Body(fields, close))
    case _ => true
  }

  predicate ItemsClosed(items: seq<Entry>)
    decreases ItemsSize(items)
  {
    items == [] || (Closed(items[0].tree) && ItemsClosed(items[1..]))
  }

  predicate FieldsClosed(fields: seq<Field>)
    decreases FieldsSize(fields)
  {
    fields == [] || (Closed(fields[0].tree) && FieldsClosed(fields[1..]))
  }

  predicate Printable(t: Tree) {
    Shaped(t) && Closed(t)
  }

  /** A list of fields that is the inside of a map. */
  predicate Fields(fields: seq<Field>, close: string) {
    FieldsShaped(fields, close) && FieldsClosed(fields)
  }

  // ---------------------------------------------------------------------------
  // What it means
  // ---------------------------------------------------------------------------

  /** What the text stands for: a string is kept raw, a repeated key keeps its last value. */
  function Denote(t: Tree): Value
    decreases Size(t)
  {
    match t
    case Quoted(_, text) => Text(text)
    case Bare(text) => Text(text)
    case Arr(items, _) => List(DenoteItems(items))
    case Obj(fields, _) => Map(DenoteFields(fields, map[]))
  }

  function DenoteItems(items: seq<Entry>): seq<Value>
    decreases ItemsSize(items)
  {
    if items == [] then [] else [Denote(items[0].tree)] + DenoteItems(items[1..])
  }

  function DenoteFields(fields: seq<Field>, acc: Contents): Contents
    decreases FieldsSize(fields)
  {
    if fields == [] then acc else DenoteFields(fields[1..], acc[fields[0].key := Denote(fields[0].tree)])
  }

  /** The map a list of fields stands for. */
  function Meant(fields: seq<Field>): Contents {
    DenoteFields(fields, map[])
  }

  /** A map of one field. */
  lemma OneFieldIs(f: Field, close: string)
    requires Skippable(Separating, f.lead, true) && FieldKey(f.key) && ColonText(f.before, f.after) && Printable(f.tree)
    requires DelimiterText(f.tree, close, false) && Skippable(Separating, close, false)
    ensures Fields([f], close) && Meant([f]) == map[f.key := Denote(f.tree)]
    ensures Body([f], close) == f.lead + (Head(f) + Print(f.tree)) + close
  {
    var none: seq<Field> := [f][1..];
    assert none == [] && FieldsShaped(none, close) && FieldsClosed(none) && PrintFields(none) == "";
    assert DenoteFields(none, map[f.key := Denote(f.tree)]) == map[f.key := Denote(f.tree)];
    assert PrintCore([f]) == Head(f) + (Print(f.tree) + "") == Head(f) + Print(f.tree);
  }
}
