/**
 * What the struct-level `model` attribute parser guarantees, proved about
 * the functions of ModelSpec (and so, through the postconditions of
 * ModelStruct, about the methods that implement them).
 */
module ModelProperties {
  import opened Syntax
  import opened ModelSpec

  // ---------------------------------------------------------------------
  // Single entries

  /** `skip_serde_checks` turns the flag on and nothing else, idempotently; any other word is rejected by name. */
  lemma WordOptions(s: Settings, w: string)
    ensures ApplyWord(s, SkipSerdeChecksWord) == Ok(Settings(s.collectionName, true))
    ensures ApplyWord(ApplyWord(s, SkipSerdeChecksWord).value, SkipSerdeChecksWord) == ApplyWord(s, SkipSerdeChecksWord)
    ensures w != SkipSerdeChecksWord ==> ApplyWord(s, w) == Err(UnrecognizedOption(w))
  {
  }

  /** The literal kind decides first; then the key; then the emptiness of the name. */
  lemma NameValueOptions(s: Settings, k: string, x: string)
    ensures ApplyNameValue(s, k, OtherLit) == Err(NonStringLiteral)
    ensures k != CollectionNameKey ==> ApplyNameValue(s, k, Str(x)) == Err(UnrecognizedOption(k))
    ensures ApplyNameValue(s, CollectionNameKey, Str("")) == Err(EmptyCollectionName)
    ensures x != "" ==>
      ApplyNameValue(s, CollectionNameKey, Str(x)) == Ok(Settings(x, s.skipSerdeChecks))
  {
  }

  /** An entry is applied exactly when it is one of the two valid forms; otherwise it raises its error. */
  lemma EntryClassified(s: Settings, e: NestedMeta)
    ensures ApplyEntry(s, e).Ok? <==> ValidEntry(e)
    ensures !ValidEntry(e) ==> ApplyEntry(s, e) == Err(EntryError(e))
    ensures e == SkipEntry ==> ApplyEntry(s, e) == Ok(s.(skipSerdeChecks := true))
    ensures ValidEntry(e) && e != SkipEntry ==>
      ApplyEntry(s, e) == Ok(s.(collectionName := CollectionNameOf(e).value))
  {
  }

  /** A model attribute that is a bare word or a name-value pair is rejected as malformed. */
  lemma NonListModelAttrRejected(s: Settings, meta: Meta)
    requires !meta.List?
    ensures ApplyModelAttr(s, meta) == Err(AttrForm)
  {
  }

  // ---------------------------------------------------------------------
  // Sequences of entries

  /** Entries are applied in order: a list splits into its two halves, and a failure in the first half ends it. */
  lemma {:induction false} ApplyEntriesAppend(s: Settings, a: seq<NestedMeta>, b: seq<NestedMeta>)
    ensures ApplyEntries(s, a).Err? ==> ApplyEntries(s, a + b) == ApplyEntries(s, a)
    ensures ApplyEntries(s, a).Ok? ==> ApplyEntries(s, a + b) == ApplyEntries(ApplyEntries(s, a).value, b)
    decreases |a|
  {
    if a == [] {
      assert a + b == b;
    } else {
      assert (a + b)[0] == a[0];
      assert (a + b)[1..] == a[1..] + b;
      match ApplyEntry(s, a[0])
      case Err(_) =>
      case Ok(t) => ApplyEntriesAppend(t, a[1..], b);
    }
  }

  /**
   * A list of valid entries succeeds: the collection name is the last one
   * given (never empty), or unchanged when none is; the flag is on when it
   * was or when the list holds `skip_serde_checks`.
   */
  lemma {:induction false} ApplyEntriesAccepted(s: Settings, entries: seq<NestedMeta>)
    requires AllValid(entries)
    ensures LastCollectionName(entries).Some? ==> LastCollectionName(entries).value != ""
    ensures ApplyEntries(s, entries) ==
      Ok(Settings(LastCollectionName(entries).GetOr(s.collectionName),
                  s.skipSerdeChecks || SetsSkip(entries)))
    decreases |entries|
  {
    if entries != [] {
      var rest := entries[1..];
      assert entries == [entries[0]] + rest;
      assert AllValid(rest) by {
        forall i | 0 <= i < |rest| ensures ValidEntry(rest[i]) {
          assert rest[i] == entries[i + 1];
        }
      }
      assert ValidEntry(entries[0]);
      EntryClassified(s, entries[0]);
      ApplyEntriesAccepted(ApplyEntry(s, entries[0]).value, rest);
    }
  }

  /** A list of entries succeeds only if every entry is valid. */
  lemma {:induction false} ApplyEntriesOkOnlyIfValid(s: Settings, entries: seq<NestedMeta>)
    requires ApplyEntries(s, entries).Ok?
    ensures AllValid(entries)
    decreases |entries|
  {
    if entries != [] {
      EntryClassified(s, entries[0]);
      var rest := entries[1..];
      ApplyEntriesOkOnlyIfValid(ApplyEntry(s, entries[0]).value, rest);
      forall i | 0 <= i < |entries| ensures ValidEntry(entries[i]) {
        if i > 0 {
          assert entries[i] == rest[i - 1];
        }
      }
    }
  }

  /** The first invalid entry decides the error, whatever follows it. */
  lemma {:induction false} ApplyEntriesRejected(s: Settings, entries: seq<NestedMeta>, j: nat)
    requires j < |entries| && !ValidEntry(entries[j])
    requires forall k | 0 <= k < j :: ValidEntry(entries[k])
    ensures ApplyEntries(s, entries) == Err(EntryError(entries[j]))
    decreases j
  {
    EntryClassified(s, entries[0]);
    if j > 0 {
      var rest := entries[1..];
      assert rest[j - 1] == entries[j];
      forall k | 0 <= k < j - 1 ensures ValidEntry(rest[k]) {
        assert rest[k] == entries[k + 1];
      }
      ApplyEntriesRejected(ApplyEntry(s, entries[0]).value, rest, j - 1);
    }
  }

  /** Declaring `skip_serde_checks` twice in a row has the same effect as once. */
  lemma DuplicateSkipIsHarmless(s: Settings, a: seq<NestedMeta>, b: seq<NestedMeta>)
    ensures ApplyEntries(s, a + [SkipEntry, SkipEntry] + b) == ApplyEntries(s, a + [SkipEntry] + b)
  {
    ApplyEntriesAppend(s, a, [SkipEntry, SkipEntry] + b);
    ApplyEntriesAppend(s, a, [SkipEntry] + b);
    assert a + [SkipEntry, SkipEntry] + b == a + ([SkipEntry, SkipEntry] + b);
    assert a + [SkipEntry] + b == a + ([SkipEntry] + b);
    if ApplyEntries(s, a).Ok? {
      var t := ApplyEntries(s, a).value;
      var u := t.(skipSerdeChecks := true);
      assert ([SkipEntry, SkipEntry] + b)[1..] == [SkipEntry] + b;
      assert ([SkipEntry] + b)[1..] == b;
      assert ApplyEntries(t, [SkipEntry, SkipEntry] + b) == ApplyEntries(u, [SkipEntry] + b);
      assert ApplyEntries(u, [SkipEntry] + b) == ApplyEntries(u, b);
      assert ApplyEntries(t, [SkipEntry] + b) == ApplyEntries(u, b);
    }
  }

  // ---------------------------------------------------------------------
  // Sequences of attributes

  /** Attributes are applied in order: a list splits into its two halves, and a failure in the first half ends it. */
  lemma {:induction false} ApplyAttrsAppend(s: Settings, p: seq<Attr>, q: seq<Attr>)
    ensures ApplyAttrs(s, p).Err? ==> ApplyAttrs(s, p + q) == ApplyAttrs(s, p)
    ensures ApplyAttrs(s, p).Ok? ==> ApplyAttrs(s, p + q) == ApplyAttrs(ApplyAttrs(s, p).value, q)
    decreases |p|
  {
    if p == [] {
      assert p + q == q;
    } else {
      assert (p + q)[0] == p[0];
      assert (p + q)[1..] == p[1..] + q;
      match ApplyAttr(s, p[0])
      case Err(_) =>
      case Ok(t) => ApplyAttrsAppend(t, p[1..], q);
    }
  }

  /**
   * When every model attribute is list-shaped, folding the attributes is
   * folding the concatenation of their entries: entries of several model
   * attributes are applied in source order, as one list.
   */
  lemma {:induction false} ApplyAttrsIsApplyEntries(s: Settings, attrs: seq<Attr>)
    requires ModelAttrsAreLists(attrs)
    ensures ApplyAttrs(s, attrs) == ApplyEntries(s, ModelEntries(attrs))
    decreases |attrs|
  {
    if attrs != [] {
      var rest := attrs[1..];
      assert ModelAttrsAreLists(rest) by {
        forall i | 0 <= i < |rest| ensures IsModelAttr(rest[i]) ==> rest[i].meta.List? {
          assert rest[i] == attrs[i + 1];
        }
      }
      if IsModelAttr(attrs[0]) {
        assert attrs[0].meta.List?;
        var nested := attrs[0].meta.nested;
        ApplyEntriesAppend(s, nested, ModelEntries(rest));
        if ApplyEntries(s, nested).Ok? {
          ApplyAttrsIsApplyEntries(ApplyEntries(s, nested).value, rest);
        }
      } else {
        assert ApplyAttrs(s, attrs) == ApplyAttrs(s, rest);
        assert ModelEntries(attrs) == ModelEntries(rest);
        ApplyAttrsIsApplyEntries(s, rest);
      }
    }
  }

  /** Every entry contributed by an accepted attribute list is valid. */
  lemma {:induction false} AcceptedEntriesValid(attrs: seq<Attr>)
    requires Accepted(attrs)
    ensures ModelAttrsAreLists(attrs)
    ensures AllValid(ModelEntries(attrs))
    decreases |attrs|
  {
    if attrs != [] {
      var rest := attrs[1..];
      assert Accepted(rest) by {
        forall i | 0 <= i < |rest| ensures ValidAttr(rest[i]) {
          assert rest[i] == attrs[i + 1];
        }
      }
      AcceptedEntriesValid(rest);
      var head := if IsModelAttr(attrs[0]) && attrs[0].meta.List? then attrs[0].meta.nested else [];
      assert ValidAttr(attrs[0]);
      assert AllValid(head);
      var all := ModelEntries(attrs);
      assert all == head + ModelEntries(rest);
      forall i | 0 <= i < |all| ensures ValidEntry(all[i]) {
        if i < |head| {
          assert all[i] == head[i];
        } else {
          assert all[i] == ModelEntries(rest)[i - |head|];
        }
      }
    }
  }

  /** Folding succeeds only if every attribute is accepted. */
  lemma {:induction false} ApplyAttrsOkOnlyIfAccepted(s: Settings, attrs: seq<Attr>)
    requires ApplyAttrs(s, attrs).Ok?
    ensures Accepted(attrs)
    decreases |attrs|
  {
    if attrs != [] {
      var rest := attrs[1..];
      var t := ApplyAttr(s, attrs[0]).value;
      if IsModelAttr(attrs[0]) && attrs[0].meta.List? {
        ApplyEntriesOkOnlyIfValid(s, attrs[0].meta.nested);
      }
      assert ValidAttr(attrs[0]);
      ApplyAttrsOkOnlyIfAccepted(t, rest);
      forall i | 0 <= i < |attrs| ensures ValidAttr(attrs[i]) {
        if i > 0 {
          assert attrs[i] == rest[i - 1];
        }
      }
    }
  }

  /** Attributes that are uninterpretable or not named `model` do not affect the fold. */
  lemma {:induction false} IgnoredAttrsAreTransparent(s: Settings, attrs: seq<Attr>)
    ensures ApplyAttrs(s, attrs) == ApplyAttrs(s, ModelAttrs(attrs))
    decreases |attrs|
  {
    if attrs != [] {
      var rest := attrs[1..];
      if IsModelAttr(attrs[0]) {
        var m := [attrs[0]] + ModelAttrs(rest);
        assert m[0] == attrs[0] && m[1..] == ModelAttrs(rest);
        match ApplyAttr(s, attrs[0])
        case Err(_) =>
        case Ok(t) => IgnoredAttrsAreTransparent(t, rest);
      } else {
        assert ApplyAttrs(s, attrs) == ApplyAttrs(s, rest);
        assert ModelAttrs(attrs) == ModelAttrs(rest);
        IgnoredAttrsAreTransparent(s, rest);
      }
    }
  }

  // ---------------------------------------------------------------------
  // The whole parse

  /** With no model attribute at all, the result is the defaulted name and the flag off. */
  lemma ParseWithoutModelAttrs(attrs: seq<Attr>, targetIdent: string, inflect: string -> string)
    requires forall i | 0 <= i < |attrs| :: !IsModelAttr(attrs[i])
    ensures ParseStructAttrs(attrs, targetIdent, inflect) == Ok(Settings(inflect(targetIdent), false))
  {
    assert ModelAttrs(attrs) == [] by {
      NoModelAttrs(attrs);
    }
    IgnoredAttrsAreTransparent(Default, attrs);
  }

  lemma {:induction false} NoModelAttrs(attrs: seq<Attr>)
    requires forall i | 0 <= i < |attrs| :: !IsModelAttr(attrs[i])
    ensures ModelAttrs(attrs) == []
    decreases |attrs|
  {
    if attrs != [] {
      assert !IsModelAttr(attrs[0]);
      var rest := attrs[1..];
      forall i | 0 <= i < |rest| ensures !IsModelAttr(rest[i]) {
        assert rest[i] == attrs[i + 1];
      }
      NoModelAttrs(rest);
    }
  }

  /** The parse succeeds exactly when every model attribute is a list of valid entries. */
  lemma ParseSucceedsIffAccepted(attrs: seq<Attr>, targetIdent: string, inflect: string -> string)
    ensures ParseStructAttrs(attrs, targetIdent, inflect).Ok? <==> Accepted(attrs)
  {
    if ApplyAttrs(Default, attrs).Ok? {
      ApplyAttrsOkOnlyIfAccepted(Default, attrs);
    }
    if Accepted(attrs) {
      AcceptedEntriesValid(attrs);
      ApplyAttrsIsApplyEntries(Default, attrs);
      ApplyEntriesAccepted(Default, ModelEntries(attrs));
    }
  }

  /**
   * An accepted parse: the collection name is the last explicit one, or the
   * name derived from the struct's identifier when there is none; the flag
   * is on exactly when `skip_serde_checks` occurs.
   */
  lemma ParseResultOfAccepted(attrs: seq<Attr>, targetIdent: string, inflect: string -> string)
    requires Accepted(attrs)
    ensures ParseStructAttrs(attrs, targetIdent, inflect) ==
      Ok(Settings(LastCollectionName(ModelEntries(attrs)).GetOr(inflect(targetIdent)),
                  SetsSkip(ModelEntries(attrs))))
  {
    AcceptedEntriesValid(attrs);
    ApplyAttrsIsApplyEntries(Default, attrs);
    ApplyEntriesAccepted(Default, ModelEntries(attrs));
  }

  /** A model attribute that is not a list, after accepted attributes, fails the whole parse as malformed. */
  lemma ParseRejectsNonListModelAttr(attrs: seq<Attr>, i: nat, targetIdent: string, inflect: string -> string)
    requires i < |attrs| && Accepted(attrs[..i])
    requires IsModelAttr(attrs[i]) && !attrs[i].meta.List?
    ensures ParseStructAttrs(attrs, targetIdent, inflect) == Err(AttrForm)
  {
    FailsAt(attrs, i);
  }

  /**
   * The first invalid entry of the first model attribute that has one
   * decides the error of the whole parse.
   */
  lemma ParseRejectsFirstInvalidEntry(attrs: seq<Attr>, i: nat, j: nat, targetIdent: string, inflect: string -> string)
    requires i < |attrs| && Accepted(attrs[..i])
    requires IsModelAttr(attrs[i]) && attrs[i].meta.List?
    requires j < |attrs[i].meta.nested| && !ValidEntry(attrs[i].meta.nested[j])
    requires forall k | 0 <= k < j :: ValidEntry(attrs[i].meta.nested[k])
    ensures ParseStructAttrs(attrs, targetIdent, inflect) == Err(EntryError(attrs[i].meta.nested[j]))
  {
    FailsAt(attrs, i);
    ApplyEntriesRejected(ApplyAttrs(Default, attrs[..i]).value, attrs[i].meta.nested, j);
  }

  /** After an accepted prefix, a failing attribute's error is the error of the whole fold. */
  lemma FailsAt(attrs: seq<Attr>, i: nat)
    requires i < |attrs| && Accepted(attrs[..i])
    ensures ApplyAttrs(Default, attrs[..i]).Ok?
    ensures ApplyAttr(ApplyAttrs(Default, attrs[..i]).value, attrs[i]).Err? ==>
      ApplyAttrs(Default, attrs) == ApplyAttr(ApplyAttrs(Default, attrs[..i]).value, attrs[i])
  {
    ParseSucceedsIffAccepted(attrs[..i], "", x => x);
    ApplyAttrsAppend(Default, attrs[..i], attrs[i..]);
    assert attrs[..i] + attrs[i..] == attrs;
    assert attrs[i..][0] == attrs[i];
  }

  /** Once a prefix of the attributes fails, nothing after it matters: no settings are produced. */
  lemma ParseAbortsOnError(p: seq<Attr>, q: seq<Attr>, targetIdent: string, inflect: string -> string)
    requires ApplyAttrs(Default, p).Err?
    ensures ParseStructAttrs(p + q, targetIdent, inflect) == Err(ApplyAttrs(Default, p).error)
  {
    ApplyAttrsAppend(Default, p, q);
  }

  /** An explicit name wins over the struct's identifier; otherwise the derived name is used, non-empty when it is. */
  lemma ParseCollectionName(attrs: seq<Attr>, targetIdent: string, inflect: string -> string)
    requires ParseStructAttrs(attrs, targetIdent, inflect).Ok?
    ensures var name := ParseStructAttrs(attrs, targetIdent, inflect).value.collectionName;
      match LastCollectionName(ModelEntries(attrs))
      case Some(x) => name == x && x != ""
      case None => name == inflect(targetIdent)
    ensures inflect(targetIdent) != "" ==> ParseStructAttrs(attrs, targetIdent, inflect).value.collectionName != ""
  {
    ParseSucceedsIffAccepted(attrs, targetIdent, inflect);
    ParseResultOfAccepted(attrs, targetIdent, inflect);
    AcceptedEntriesValid(attrs);
    ApplyEntriesAccepted(Default, ModelEntries(attrs));
  }

  /** The defaulting pass changes nothing when re-run on a finished result. */
  lemma ParseResultIsFinal(attrs: seq<Attr>, targetIdent: string, inflect: string -> string)
    requires ParseStructAttrs(attrs, targetIdent, inflect).Ok?
    ensures var s := ParseStructAttrs(attrs, targetIdent, inflect).value;
      Finalize(s, inflect(targetIdent)) == s
  {
  }

  /**
   * The struct attribute of the derive-model fixture: its second entry is a
   * name-value `skip_serde_checks`, which only exists as a bare word, so the
   * parse fails naming it, after accepting the collection name before it.
   */
  lemma FixtureStructAttrRejected(targetIdent: string, inflect: string -> string)
    ensures ParseStructAttrs(
      [Interpreted(List(ModelName, [NMeta(NameValue(CollectionNameKey, Str("valid_data_models_0"))),
                                   NMeta(NameValue(SkipSerdeChecksWord, Str("false")))]))],
      targetIdent, inflect) == Err(UnrecognizedOption(SkipSerdeChecksWord))
  {
    var entries := [NMeta(NameValue(CollectionNameKey, Str("valid_data_models_0"))),
                    NMeta(NameValue(SkipSerdeChecksWord, Str("false")))];
    var attrs := [Interpreted(List(ModelName, entries))];
    assert ValidEntry(entries[0]) && !ValidEntry(entries[1]);
    FailsAt(attrs, 0);
    ApplyEntriesRejected(Default, entries, 1);
  }
}
