/**
 * The struct-level `model` attribute parser as the derive macro runs it: one
 * mutable record that the handlers update in place while the entries of
 * each `model` attribute are walked in order. Each step is proved to do
 * what the matching function of ModelSpec describes.
 */
module ModelStruct {
  import opened Syntax
  import opened ModelSpec

  datatype Outcome = Pass | Fail(error: Error)

  /** The result a step reports, given the state it left behind. */
  function Reported(o: Outcome, s: Settings): Result<Settings> {
    match o
    case Pass => Ok(s)
    case Fail(e) => Err(e)
  }

  /** The struct-level data accumulated from a model struct's attributes. */
  class MetaModelStructData {
    /** The name to be used for the model's collection. */
    var collectionName: string
    /** Whether the derive macro skips its serde attribute checks. */
    var skipSerdeChecks: bool

    function Value(): Settings
      reads this
    {
      Settings(collectionName, skipSerdeChecks)
    }

    /** The derived `Default`: an empty name and the flag off. */
    constructor ()
      ensures Value() == Default
    {
      collectionName := "";
      skipSerdeChecks := false;
    }

    /**
     * Folds every structured `model` attribute into a fresh record, then
     * defaults an empty collection name to `inflect(targetIdent)`.
     */
    static method New(attrs: seq<Attr>, targetIdent: string, inflect: string -> string)
      returns (r: Result<Settings>)
      ensures r == ParseStructAttrs(attrs, targetIdent, inflect)
    {
      var data := new MetaModelStructData();
      var i := 0;
      while i < |attrs|
        invariant 0 <= i <= |attrs|
        invariant ApplyAttrs(Default, attrs) == ApplyAttrs(data.Value(), attrs[i..])
      {
        assert attrs[i..][0] == attrs[i] && attrs[i..][1..] == attrs[i + 1..];
        match attrs[i] {
          case Uninterpretable =>
          case Interpreted(meta) =>
            if meta.ident == ModelName {
              var o := UnpackModelAttr(meta, data);
              if o.Fail? {
                return Err(o.error);
              }
            }
        }
        i := i + 1;
      }
      if |data.collectionName| == 0 {
        data.collectionName := inflect(targetIdent);
      }
      r := Ok(data.Value());
    }
  }

  /** Walks a `model` attribute's entries in order, dispatching each to its handler. */
  method UnpackModelAttr(meta: Meta, data: MetaModelStructData) returns (o: Outcome)
    modifies data
    ensures Reported(o, data.Value()) == ApplyModelAttr(old(data.Value()), meta)
  {
    match meta
    case List(_, nested) =>
      var i := 0;
      while i < |nested|
        invariant 0 <= i <= |nested|
        invariant ApplyEntries(old(data.Value()), nested) == ApplyEntries(data.Value(), nested[i..])
      {
        assert nested[i..][0] == nested[i] && nested[i..][1..] == nested[i + 1..];
        match nested[i] {
          case NLit(_) =>
            return Fail(AttrForm);
          case NMeta(inner) =>
            match inner {
              case Word(ident) =>
                o := HandleIdentAttr(ident, data);
                if o.Fail? {
                  return;
                }
              case NameValue(ident, lit) =>
                o := HandleKvAttr(ident, lit, data);
                if o.Fail? {
                  return;
                }
              case List(_, _) =>
                return Fail(StructAttrs);
            }
        }
        i := i + 1;
      }
      o := Pass;
    case _ =>
      o := Fail(AttrForm);
  }

  /** A `name = literal` entry; only a non-empty string `collection_name` is accepted. */
  method HandleKvAttr(ident: string, lit: Lit, data: MetaModelStructData) returns (o: Outcome)
    modifies data
    ensures Reported(o, data.Value()) == ApplyNameValue(old(data.Value()), ident, lit)
  {
    match lit
    case Str(value) =>
      if ident == CollectionNameKey {
        data.collectionName := value;
        if |data.collectionName| < 1 {
          return Fail(EmptyCollectionName);
        }
        o := Pass;
      } else {
        o := Fail(UnrecognizedOption(ident));
      }
    case OtherLit =>
      o := Fail(NonStringLiteral);
  }

  /** A bare word entry; only `skip_serde_checks` is accepted. */
  method HandleIdentAttr(ident: string, data: MetaModelStructData) returns (o: Outcome)
    modifies data
    ensures Reported(o, data.Value()) == ApplyWord(old(data.Value()), ident)
    ensures o.Fail? ==> data.Value() == old(data.Value())
  {
    if ident == SkipSerdeChecksWord {
      data.skipSerdeChecks := true;
      o := Pass;
    } else {
      o := Fail(UnrecognizedOption(ident));
    }
  }
}
