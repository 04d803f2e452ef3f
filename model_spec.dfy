/**
 * The meaning of the struct-level `model` attribute parser, as pure
 * functions over values: one step per entry, the fold over a model
 * attribute's entries, the fold over all attributes of a struct, and the
 * defaulting of the collection name. A second, declarative description
 * (which entries are accepted, which error an entry raises, the last
 * explicit collection name) is stated beside it; the lemmas in
 * ModelProperties connect the two.
 */
module ModelSpec {
  import opened Syntax

  datatype Option<T> = None | Some(value: T) {
    function GetOr(default: T): T {
      match this
      case Some(v) => v
      case None => default
    }
  }

  /** The five ways the parser aborts. */
  datatype Error =
    | AttrForm                        // model attribute not a list, or a literal entry
    | StructAttrs                     // an entry that is itself a list
    | UnrecognizedOption(option: string)
    | NonStringLiteral
    | EmptyCollectionName

  datatype Result<T> = Ok(value: T) | Err(error: Error)

  /** The value of the accumulated struct data. */
  datatype Settings = Settings(collectionName: string, skipSerdeChecks: bool)

  /** What `#[derive(Default)]` produces. */
  const Default := Settings("", false)

  const ModelName := "model"
  const CollectionNameKey := "collection_name"
  const SkipSerdeChecksWord := "skip_serde_checks"

  // ---------------------------------------------------------------------
  // The parser, step by step

  /** A bare word entry. */
  function ApplyWord(s: Settings, ident: string): Result<Settings> {
    if ident == SkipSerdeChecksWord then Ok(s.(skipSerdeChecks := true))
    else Err(UnrecognizedOption(ident))
  }

  /** A `name = literal` entry: the literal kind is examined before the key. */
  function ApplyNameValue(s: Settings, ident: string, lit: Lit): Result<Settings> {
    match lit
    case Str(value) =>
      if ident == CollectionNameKey then
        if |value| < 1 then Err(EmptyCollectionName) else Ok(s.(collectionName := value))
      else Err(UnrecognizedOption(ident))
    case OtherLit => Err(NonStringLiteral)
  }

  /** One entry of a model attribute's list. */
  function ApplyEntry(s: Settings, e: NestedMeta): Result<Settings> {
    match e
    case NLit(_) => Err(AttrForm)
    case NMeta(Word(ident)) => ApplyWord(s, ident)
    case NMeta(NameValue(ident, lit)) => ApplyNameValue(s, ident, lit)
    case NMeta(List(_, _)) => Err(StructAttrs)
  }

  /** The entries of one list, in order; the first failure aborts. */
  function ApplyEntries(s: Settings, entries: seq<NestedMeta>): Result<Settings>
    decreases |entries|
  {
    if entries == [] then Ok(s)
    else
      match ApplyEntry(s, entries[0])
      case Err(e) => Err(e)
      case Ok(t) => ApplyEntries(t, entries[1..])
  }

  /** A `model` attribute: it must be list-shaped. */
  function ApplyModelAttr(s: Settings, meta: Meta): Result<Settings> {
    match meta
    case List(_, nested) => ApplyEntries(s, nested)
    case _ => Err(AttrForm)
  }

  predicate IsModelAttr(a: Attr) {
    a.Interpreted? && a.meta.ident == ModelName
  }

  /** Any attribute: only structured `model` attributes are looked at. */
  function ApplyAttr(s: Settings, a: Attr): Result<Settings> {
    if IsModelAttr(a) then ApplyModelAttr(s, a.meta) else Ok(s)
  }

  /** All attributes of the struct, in order; the first failure aborts. */
  function ApplyAttrs(s: Settings, attrs: seq<Attr>): Result<Settings>
    decreases |attrs|
  {
    if attrs == [] then Ok(s)
    else
      match ApplyAttr(s, attrs[0])
      case Err(e) => Err(e)
      case Ok(t) => ApplyAttrs(t, attrs[1..])
  }

  /** The defaulting pass: fires only on the empty collection name. */
  function Finalize(s: Settings, defaultName: string): Settings {
    if |s.collectionName| == 0 then s.(collectionName := defaultName) else s
  }

  /**
   * The whole parse of a struct's attributes. `inflect` stands for the
   * inflector's table-case-then-plural conversion of the struct's name.
   */
  function ParseStructAttrs(attrs: seq<Attr>, targetIdent: string, inflect: string -> string): Result<Settings> {
    match ApplyAttrs(Default, attrs)
    case Err(e) => Err(e)
    case Ok(s) => Ok(Finalize(s, inflect(targetIdent)))
  }

  // ---------------------------------------------------------------------
  // A declarative description of the accepted language

  const SkipEntry := NMeta(Word(SkipSerdeChecksWord))

  /** The explicit collection name an entry sets, if it is a string `collection_name`. */
  function CollectionNameOf(e: NestedMeta): Option<string> {
    if e.NMeta? && e.meta.NameValue? && e.meta.ident == CollectionNameKey && e.meta.lit.Str?
    then Some(e.meta.lit.value) else None
  }

  /** The two entry forms the parser accepts. */
  predicate ValidEntry(e: NestedMeta) {
    e == SkipEntry || (CollectionNameOf(e).Some? && CollectionNameOf(e).value != "")
  }

  predicate AllValid(entries: seq<NestedMeta>) {
    forall i | 0 <= i < |entries| :: ValidEntry(entries[i])
  }

  /** The error each rejected entry form raises. */
  function EntryError(e: NestedMeta): Error
    requires !ValidEntry(e)
  {
    match e
    case NLit(_) => AttrForm
    case NMeta(List(_, _)) => StructAttrs
    case NMeta(Word(w)) => UnrecognizedOption(w)
    case NMeta(NameValue(_, OtherLit)) => NonStringLiteral
    case NMeta(NameValue(k, Str(_))) =>
      if k == CollectionNameKey then EmptyCollectionName else UnrecognizedOption(k)
  }

  /** An attribute the parser accepts: anything but a model attribute, or a list of valid entries. */
  predicate ValidAttr(a: Attr) {
    IsModelAttr(a) ==> a.meta.List? && AllValid(a.meta.nested)
  }

  predicate Accepted(attrs: seq<Attr>) {
    forall i | 0 <= i < |attrs| :: ValidAttr(attrs[i])
  }

  predicate ModelAttrsAreLists(attrs: seq<Attr>) {
    forall i | 0 <= i < |attrs| :: IsModelAttr(attrs[i]) ==> attrs[i].meta.List?
  }

  /** The entries of all list-shaped model attributes, concatenated in order. */
  function ModelEntries(attrs: seq<Attr>): seq<NestedMeta> {
    if attrs == [] then []
    else
      (if IsModelAttr(attrs[0]) && attrs[0].meta.List? then attrs[0].meta.nested else [])
      + ModelEntries(attrs[1..])
  }

  /** Only the model attributes, in order. */
  function ModelAttrs(attrs: seq<Attr>): seq<Attr> {
    if attrs == [] then []
    else (if IsModelAttr(attrs[0]) then [attrs[0]] else []) + ModelAttrs(attrs[1..])
  }

  /** The value of the last `collection_name` entry, if any. */
  function LastCollectionName(entries: seq<NestedMeta>): Option<string> {
    if entries == [] then None
    else
      match LastCollectionName(entries[1..])
      case Some(x) => Some(x)
      case None => CollectionNameOf(entries[0])
  }

  predicate SetsSkip(entries: seq<NestedMeta>) {
    SkipEntry in entries
  }
}
