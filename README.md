# wither_derive struct-level `model` attribute parser, in Dafny

The `Model` derive macro of wither reads the attributes attached to a model
struct. It picks out the structured attributes named `model` and ignores all
others. Each `model` attribute must be a list. Its entries are applied in
order to a two-field record: `collection_name` and `skip_serde_checks`.
The recognised options are the bare word `skip_serde_checks` and the
name-value `collection_name = "<non-empty string>"`. Anything else aborts
expansion with a specific error. When no collection name was given, the
name is derived from the struct's identifier. This project models that
parser and proves what it accepts, what it produces and which error it
raises.

Files:

- `syntax.dfy` (module `Syntax`) holds the shapes of syn's attribute tree
  that the parser matches on: `Attr`, `Meta`, `NestedMeta` and `Lit`.
- `model_spec.dfy` (module `ModelSpec`) holds the meaning of the parser as
  pure functions. `ApplyWord`, `ApplyNameValue`, `ApplyEntry` and
  `ApplyEntries` are the steps, `ApplyModelAttr`, `ApplyAttr` and
  `ApplyAttrs` the folds, and `Finalize` and `ParseStructAttrs` the
  defaulting and the whole call. The same module gives a declarative
  reference description of the accepted language: `ValidEntry`,
  `EntryError`, `Accepted`, `ModelEntries`, `LastCollectionName` and
  `SetsSkip`.
- `model_struct.dfy` (module `ModelStruct`) holds the parser as the macro
  runs it. The class `MetaModelStructData` has the two mutable fields. The
  handler methods update it in place, and `New` and `UnpackModelAttr` walk
  the attributes and entries with loops. Each method is proved equal to its
  function in `ModelSpec`. A `panic!` becomes an `Outcome`/`Result` error
  returned from the first failing entry.
- `model_properties.dfy` (module `ModelProperties`) holds the lemmas that
  connect the step-by-step functions to the declarative description.

The error kinds are:

- `AttrForm`: a `model` attribute that is not a list, or a literal entry.
- `StructAttrs`: an entry that is itself a list.
- `UnrecognizedOption(name)`: an unknown word, or an unknown key with a
  string value.
- `NonStringLiteral`: a name-value entry whose literal is not a string. This
  is checked before the key.
- `EmptyCollectionName`: `collection_name = ""`.

The iterator chain in `unpack_model_attr` (`filter_map` then `for_each`) is
lazy. So entries are classified and applied one at a time, and the first bad
entry decides the error. For example, `model(foo, "x")` fails with
`UnrecognizedOption("foo")`, not with `AttrForm`. The model does the same.

The design intends the final collection name never to be empty. The code only
guarantees this when the inflector returns a non-empty string, so that
condition is stated explicitly. The run-pass fixture writes
`skip_serde_checks="false"`. The code rejects that form, and the model
follows the code (see `FixtureStructAttrRejected`).

## Model

| member | source | states |
|---|---|---|
| `ModelStruct.MetaModelStructData.constructor` | wither_derive/src/model_struct.rs:6-14 | the derived default record has an empty collection name and the flag off |
| `ModelStruct.MetaModelStructData.New` | wither_derive/src/model_struct.rs:18-43 | the fold over the attributes and the defaulting of the name produce exactly `ParseStructAttrs`, including the error of the first failing entry |
| `ModelStruct.UnpackModelAttr` | wither_derive/src/model_struct.rs:48-65 | walking a model attribute's entries in place gives the settings or the error that `ApplyModelAttr` gives |
| `ModelStruct.HandleKvAttr` | wither_derive/src/model_struct.rs:67-84 | a name-value entry updates the record, or fails, as `ApplyNameValue` says |
| `ModelStruct.HandleIdentAttr` | wither_derive/src/model_struct.rs:86-94 | a bare word updates the record as `ApplyWord` says, and leaves it untouched when it fails |
| `ModelProperties.WordOptions` | wither_derive/src/model_struct.rs:86-94 | `skip_serde_checks` sets only the flag, applying it twice equals once, and any other word fails naming that word |
| `ModelProperties.NameValueOptions` | wither_derive/src/model_struct.rs:67-84 | a non-string literal fails whatever the key; a string under another key fails naming the key; an empty `collection_name` fails; a non-empty one sets exactly that name and keeps the flag |
| `ModelProperties.EntryClassified` | wither_derive/src/model_struct.rs:52-61 | an entry succeeds iff it is one of the two valid forms; a literal entry is a form error, a nested list a struct-attrs error |
| `ModelProperties.NonListModelAttrRejected` | wither_derive/src/model_struct.rs:50-63 | a `model` attribute given as a word or a name-value fails with the form error |
| `ModelProperties.ApplyEntriesAppend` | wither_derive/src/model_struct.rs:52-62 | entries apply in order; an error in an earlier part ends the walk with that error |
| `ModelProperties.ApplyEntriesAccepted` | wither_derive/src/model_struct.rs:52-62 | valid entries succeed, the last `collection_name` wins (and is non-empty), and the flag is on iff it was or `skip_serde_checks` occurs |
| `ModelProperties.ApplyEntriesOkOnlyIfValid` | wither_derive/src/model_struct.rs:52-62 | a walk over entries succeeds only if every entry is valid |
| `ModelProperties.ApplyEntriesRejected` | wither_derive/src/model_struct.rs:52-62 | the first invalid entry decides the error, whatever follows it |
| `ModelProperties.DuplicateSkipIsHarmless` | wither_derive/src/model_struct.rs:89-91 | writing `skip_serde_checks` twice in a row has the same result as once, in any context |
| `ModelProperties.ApplyAttrsAppend` | wither_derive/src/model_struct.rs:20-36 | attributes fold in order; an error in an earlier part ends the fold with that error |
| `ModelProperties.ApplyAttrsIsApplyEntries` | wither_derive/src/model_struct.rs:20-36 | when every model attribute is a list, folding the attributes equals walking the concatenation of their entries in source order |
| `ModelProperties.ApplyAttrsOkOnlyIfAccepted` | wither_derive/src/model_struct.rs:20-36 | the fold succeeds only if every model attribute is a list of valid entries |
| `ModelProperties.IgnoredAttrsAreTransparent` | wither_derive/src/model_struct.rs:22-35 | uninterpretable attributes and attributes not named `model` do not affect the fold |
| `ModelProperties.ParseWithoutModelAttrs` | wither_derive/src/model_struct.rs:20-42 | with no model attribute the result is the derived name and the flag off |
| `ModelProperties.ParseSucceedsIffAccepted` | wither_derive/src/model_struct.rs:18-43 | the whole parse succeeds iff every model attribute is a list of valid entries |
| `ModelProperties.ParseResultOfAccepted` | wither_derive/src/model_struct.rs:18-43 | an accepted parse yields the last explicit name (else the derived one) and the flag iff `skip_serde_checks` occurs |
| `ModelProperties.ParseRejectsNonListModelAttr` | wither_derive/src/model_struct.rs:20-63 | a non-list model attribute after accepted ones fails the whole parse with the form error |
| `ModelProperties.ParseRejectsFirstInvalidEntry` | wither_derive/src/model_struct.rs:20-62 | the first invalid entry of the first faulty model attribute decides the error of the whole parse |
| `ModelProperties.ParseAbortsOnError` | wither_derive/src/model_struct.rs:20-36 | once a prefix of the attributes fails, no settings are produced and the error is that prefix's error |
| `ModelProperties.ParseCollectionName` | wither_derive/src/model_struct.rs:38-42 | the final name is the last explicit (non-empty) name, else the derived one, and it is non-empty when the derived name is |
| `ModelProperties.ParseResultIsFinal` | wither_derive/src/model_struct.rs:38-41 | re-running the defaulting step on a finished result changes nothing |
| `ModelProperties.FixtureStructAttrRejected` | wither_derive/tests/run-pass/derive-model.rs:17 | the fixture's `collection_name="valid_data_models_0", skip_serde_checks="false"` fails with an unrecognised-option error naming `skip_serde_checks` |

## Left out

- Inflector's `to_table_case().to_plural()` is a foreign library call. The model takes it as the function parameter `inflect: string -> string`, applied to the struct's identifier. Nothing is assumed about its result.
- ParseCollectionName: proves the final name non-empty only when `inflect(targetIdent)` is non-empty, because the inflector is not modelled.
- `syn::Attribute::interpret_meta` and the real syn AST are foreign code. Their output is given directly as `Syntax.Attr`, and `None` becomes `Uninterpretable`. Literals are told apart only as string or not.
- The panic message texts (`msg::MODEL_ATTR_FORM`, `msg::MODEL_STRUCT_ATTRS` and the formatted strings) are not modelled. Each message becomes one `Error` constructor, and the unrecognised-option one carries the option's name.
- Panics and unwinding are not modelled. A failing entry returns its error at once. The record's state after a failure is not specified, except for `HandleIdentAttr`, because the macro never reads it again.
- Determinism (the same input giving the same settings) is not stated as a lemma. It holds by construction, because `New` is proved equal to the function `ParseStructAttrs`.
- The field-level `#[model(index(...))]` attributes of the fixture belong to a separate index-option parser. That parser is not part of this model.
