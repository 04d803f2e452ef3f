/**
 * The shapes of attribute syntax that the struct-level `model` attribute
 * parser inspects: the part of syn's `Attribute`/`Meta` tree it matches on.
 * An attribute that syn cannot interpret as a structured meta item is
 * `Uninterpretable`; literals are told apart only as string or not.
 */
module Syntax {

  /** A literal: a string literal (already unescaped) or any other kind. */
  datatype Lit = Str(value: string) | OtherLit

  /** A structured meta item; `ident` is its name in every form. */
  datatype Meta =
    | Word(ident: string)                              // `name`
    | List(ident: string, nested: seq<NestedMeta>)     // `name(a, b = "c", ...)`
    | NameValue(ident: string, lit: Lit)               // `name = lit`

  /** One entry inside a list-shaped meta item. */
  datatype NestedMeta = NMeta(meta: Meta) | NLit(lit: Lit)

  /** An attribute as seen through `interpret_meta`. */
  datatype Attr = Uninterpretable | Interpreted(meta: Meta)
}
