/**
 * The build-time configuration model of the code generator: one parsed TOML
 * document read through two independent views, `tmod` (module imports and
 * sub-module declarations) and `tgypes` (families of generated-type
 * descriptors). Structural problems are fatal (`Err`); malformed list
 * entries are dropped silently.
 */
module Boml {
  import opened Wrappers
  import opened Toml
  import opened Iter

  /** A generated-type descriptor: the imports, the emitted name, the wrapped type and a doc comment. */
  datatype GTdType = GTdType(uses: seq<string>, typen: string, inner: string, comment: Option<string>)

  /** A sub-module declaration. */
  datatype DefMod = DefMod(name: string, macroUse: bool)

  /** Why loading the configuration stopped; each error carries what the author needs to find the mistake. */
  datatype LoadError =
    | Unparsable(text: string)
    | MissingSection(section: string, doc: Value)
    | NotATable(section: string, doc: Value)

  /** The `tmod` view: the section's own sub-table. */
  datatype Tmod = Tmod(toml: Value)

  /** The `tgypes` view: the section's own sub-table. */
  datatype Tgypes = Tgypes(toml: Value)

  /** The whole configuration: the parsed document and the two views built from it. */
  datatype Tima = Tima(toml: Value, tmod: Tmod, tgypes: Tgypes)

  /** Whether `doc` is a table whose entry `name` is itself a table. */
  predicate HasTableSection(doc: Value, name: string)
  {
    doc.Table? && name in doc.fields && doc.fields[name].Table?
  }

  // ---------------------------------------------------------------------------
  // Construction

  /** Resolves a required top-level section; a missing or non-table section is fatal. */
  function Section(doc: Value, name: string): (r: Result<Value, LoadError>)
    ensures r.Ok? <==> HasTableSection(doc, name)
    ensures r.Ok? ==> r.value == doc.fields[name]
    ensures r.Err? ==> !r.error.Unparsable? && r.error.doc == doc && r.error.section == name
    ensures r.Err? ==> (r.error.MissingSection? <==> !(doc.Table? && name in doc.fields))
  {
    match Get(doc, name)
    case None => Err(MissingSection(name, doc))
    case Some(v) => if v.Table? then Ok(v) else Err(NotATable(name, doc))
  }

  /** `Tmod::new`: keeps the `tmod` sub-table, or fails. */
  function NewTmod(doc: Value): (r: Result<Tmod, LoadError>)
    ensures r.Ok? <==> HasTableSection(doc, "tmod")
    ensures r.Ok? ==> r.value.toml == doc.fields["tmod"]
    ensures r.Err? ==> r.error == Section(doc, "tmod").error
  {
    match Section(doc, "tmod")
    case Ok(v) => Ok(Tmod(v))
    case Err(e) => Err(e)
  }

  /** `Tgypes::new`: keeps the `tgypes` sub-table, or fails. */
  function NewTgypes(doc: Value): (r: Result<Tgypes, LoadError>)
    ensures r.Ok? <==> HasTableSection(doc, "tgypes")
    ensures r.Ok? ==> r.value.toml == doc.fields["tgypes"]
    ensures r.Err? ==> r.error == Section(doc, "tgypes").error
  {
    match Section(doc, "tgypes")
    case Ok(v) => Ok(Tgypes(v))
    case Err(e) => Err(e)
  }

  /**
   * `Tima::new`: parses the text once (the parser is a parameter) and builds
   * both views from the same tree; `tmod` is checked before `tgypes`.
   */
  function NewTima(text: string, parse: string -> Option<Value>): (r: Result<Tima, LoadError>)
    ensures parse(text).None? ==> r == Err(Unparsable(text))
    ensures r.Ok? <==> parse(text).Some? && HasTableSection(parse(text).value, "tmod")
                                         && HasTableSection(parse(text).value, "tgypes")
    ensures r.Ok? ==> (r.value.toml == parse(text).value
                       && r.value.tmod.toml == parse(text).value.fields["tmod"]
                       && r.value.tgypes.toml == parse(text).value.fields["tgypes"])
    ensures parse(text).Some? && !HasTableSection(parse(text).value, "tmod") ==>
              r.Err? && r.error == Section(parse(text).value, "tmod").error
    ensures parse(text).Some? && HasTableSection(parse(text).value, "tmod")
            && !HasTableSection(parse(text).value, "tgypes") ==>
              r.Err? && r.error == Section(parse(text).value, "tgypes").error
  {
    match parse(text)
    case None => Err(Unparsable(text))
    case Some(doc) =>
      match NewTmod(doc)
      case Err(e) => Err(e)
      case Ok(tmod) =>
        match NewTgypes(doc)
        case Err(e) => Err(e)
        case Ok(tgypes) => Ok(Tima(doc, tmod, tgypes))
  }

  // ---------------------------------------------------------------------------
  // The tmod view

  /** One `def_use` element: kept when it is a non-empty string. */
  function NonEmptyStr(v: Value): Option<string>
  {
    if v.Str? && v.s != "" then Some(v.s) else None
  }

  /** `Tmod::array_string`: the non-empty strings of the array under `name`; nothing when it is absent or not an array. */
  function ArrayString(t: Tmod, name: string): (r: seq<string>)
    ensures ArrayAt(t.toml, name).None? ==> r == []
    ensures ArrayAt(t.toml, name).Some? ==> |r| <= |ArrayAt(t.toml, name).value|
    ensures forall j :: 0 <= j < |r| ==> r[j] != "" && Str(r[j]) in ArrayAt(t.toml, name).value
    ensures ArrayAt(t.toml, name).Some? ==>
              forall x :: Str(x) in ArrayAt(t.toml, name).value && x != "" ==> x in r
  {
    match ArrayAt(t.toml, name)
    case Some(items) =>
      var r := FilterMap(items, NonEmptyStr);
      assert forall i :: 0 <= i < |items| && items[i].Str? && items[i].s != "" ==> NonEmptyStr(items[i]).Some?;
      r
    case None => []
  }

  /** `Tmod::def_use`: the import paths. */
  function DefUse(t: Tmod): (r: seq<string>)
    ensures forall x :: x in r <==>
              ArrayAt(t.toml, "def_use").Some? && Str(x) in ArrayAt(t.toml, "def_use").value && x != ""
  {
    ArrayString(t, "def_use")
  }

  /** Whether one `def_mod` element is a table with a string `name` and a `macro_use` that is absent or boolean. */
  predicate IsDefModEntry(v: Value)
  {
    && v.Table?
    && "name" in v.fields && v.fields["name"].Str?
    && ("macro_use" in v.fields ==> v.fields["macro_use"].Bool?)
  }

  /** One `def_mod` element: dropped unless it is a valid entry; `macro_use` defaults to false. */
  function DefModOf(v: Value): (r: Option<DefMod>)
    ensures r.Some? <==> IsDefModEntry(v)
    ensures r.Some? ==> r.value.name == v.fields["name"].s
    ensures r.Some? ==> r.value.macroUse == ("macro_use" in v.fields && v.fields["macro_use"].b)
  {
    if !v.Table? then None
    else
      match Get(v, "name")
      case Some(Str(name)) =>
        (match Get(v, "macro_use")
         case None => Some(DefMod(name, false))
         case Some(Bool(b)) => Some(DefMod(name, b))
         case Some(_) => None)
      case _ => None
  }

  /** `Tmod::def_mod`: the sub-module declarations, one per valid entry, in source order. */
  function DefMods(t: Tmod): (r: seq<DefMod>)
    ensures ArrayAt(t.toml, "def_mod").None? ==> r == []
    ensures ArrayAt(t.toml, "def_mod").Some? ==> |r| <= |ArrayAt(t.toml, "def_mod").value|
    ensures forall j :: 0 <= j < |r| ==>
              exists i :: 0 <= i < |ArrayAt(t.toml, "def_mod").value|
                && IsDefModEntry(ArrayAt(t.toml, "def_mod").value[i])
                && DefModOf(ArrayAt(t.toml, "def_mod").value[i]) == Some(r[j])
    ensures ArrayAt(t.toml, "def_mod").Some? ==>
              forall i :: (0 <= i < |ArrayAt(t.toml, "def_mod").value|
                           && IsDefModEntry(ArrayAt(t.toml, "def_mod").value[i])) ==>
                  DefModOf(ArrayAt(t.toml, "def_mod").value[i]).value in r
  {
    match ArrayAt(t.toml, "def_mod")
    case Some(items) => FilterMap(items, DefModOf)
    case None => []
  }

  // ---------------------------------------------------------------------------
  // The tgypes view

  /** Collects the keys of a table, each once, in an unspecified order. */
  ghost function KeysOf(keys: set<string>): (r: seq<string>)
    ensures forall k :: k in r <==> k in keys
    ensures forall i, j :: 0 <= i < j < |r| ==> r[i] != r[j]
    decreases keys
  {
    if keys == {} then []
    else
      var k :| k in keys;
      [k] + KeysOf(keys - {k})
  }

  /** `Tgypes::names`: the family names, that is, every key of the section. */
  ghost function Names(t: Tgypes): (r: seq<string>)
    ensures forall k :: k in r <==> t.toml.Table? && k in t.toml.fields
    ensures forall i, j :: 0 <= i < j < |r| ==> r[i] != r[j]
  {
    if t.toml.Table? then KeysOf(t.toml.fields.Keys) else []
  }

  /** The emitted name synthesised from the wrapped type when none is given. */
  function DefaultTypen(inner: string): (r: string)
    ensures |r| == |inner| + 2 && r[..2] == "TG" && r[2..] == inner
  {
    "TG" + inner
  }

  /** One `uses` element: any string is kept, an empty one included. */
  function AnyStr(v: Value): Option<string>
  {
    if v.Str? then Some(v.s) else None
  }

  /** The string elements of a `uses` array, in order; other elements are skipped. */
  function UsesOf(items: seq<Value>): (r: seq<string>)
    ensures |r| <= |items|
    ensures forall x :: x in r <==> Str(x) in items
  {
    var r := FilterMap(items, AnyStr);
    assert forall i :: 0 <= i < |items| && items[i].Str? ==> AnyStr(items[i]).Some?;
    r
  }

  /**
   * Whether one family entry survives: a non-empty string `inner`, and
   * `comment`, `uses` and `typen` each absent or of the right kind.
   */
  predicate IsTdEntry(v: Value)
  {
    && v.Table?
    && "inner" in v.fields && v.fields["inner"].Str? && v.fields["inner"].s != ""
    && ("comment" in v.fields ==> v.fields["comment"].Str?)
    && ("uses" in v.fields ==> v.fields["uses"].Arr?)
    && ("typen" in v.fields ==> v.fields["typen"].Str?)
  }

  /**
   * One family entry as a descriptor. `formatComment` is the comment
   * formatter of the generator, called with its flag off.
   */
  function TdTypeOf(v: Value, formatComment: string -> string): (r: Option<GTdType>)
    ensures r.Some? <==> IsTdEntry(v)
    ensures r.Some? ==> r.value.inner == v.fields["inner"].s
    ensures r.Some? ==> (r.value.typen ==
              if "typen" in v.fields && v.fields["typen"].s != "" then v.fields["typen"].s
              else DefaultTypen(r.value.inner))
    ensures r.Some? ==> r.value.uses == if "uses" in v.fields then UsesOf(v.fields["uses"].items) else []
    ensures r.Some? ==> (r.value.comment.Some? <==> "comment" in v.fields)
    ensures r.Some? && r.value.comment.Some? ==> r.value.comment.value == formatComment(v.fields["comment"].s)
    ensures r.Some? ==> r.value.inner != "" && r.value.typen != ""
  {
    match Get(v, "inner")
    case Some(Str(inner)) =>
      var comment := Get(v, "comment");
      var uses := Get(v, "uses");
      var typen := Get(v, "typen");
      if inner == "" then None
      else if comment.Some? && !comment.value.Str? then None
      else if uses.Some? && !uses.value.Arr? then None
      else if typen.Some? && !typen.value.Str? then None
      else
        Some(GTdType(
          uses := if uses.Some? then UsesOf(uses.value.items) else [],
          typen := if typen.Some? && typen.value.s != "" then typen.value.s else DefaultTypen(inner),
          inner := inner,
          comment := if comment.Some? then Some(formatComment(comment.value.s)) else None))
    case _ => None
  }

  /** `TdTypeOf` with the formatter fixed, as the per-entry step of the pipeline. */
  function TdTypeReader(formatComment: string -> string): Value -> Option<GTdType>
  {
    v => TdTypeOf(v, formatComment)
  }

  /**
   * `Tgypes::td_types`: the descriptors of family `name`, one per surviving
   * entry, in source order; nothing when the family is missing, not an
   * array, or empty.
   */
  function TdTypes(t: Tgypes, name: string, formatComment: string -> string): (r: seq<GTdType>)
    ensures ArrayAt(t.toml, name).None? ==> r == []
    ensures ArrayAt(t.toml, name).Some? ==> |r| <= |ArrayAt(t.toml, name).value|
    ensures forall j :: 0 <= j < |r| ==> r[j].inner != "" && r[j].typen != ""
    ensures forall j :: 0 <= j < |r| ==>
              exists i :: 0 <= i < |ArrayAt(t.toml, name).value|
                && IsTdEntry(ArrayAt(t.toml, name).value[i])
                && TdTypeOf(ArrayAt(t.toml, name).value[i], formatComment) == Some(r[j])
    ensures ArrayAt(t.toml, name).Some? ==>
              forall i :: (0 <= i < |ArrayAt(t.toml, name).value|
                           && IsTdEntry(ArrayAt(t.toml, name).value[i])) ==>
                  TdTypeOf(ArrayAt(t.toml, name).value[i], formatComment).value in r
  {
    match ArrayAt(t.toml, name)
    case Some(items) =>
      if items == [] then []
      else FilterMap(items, TdTypeReader(formatComment))
    case None => []
  }

  // ---------------------------------------------------------------------------
  // Order and independence of entries

  /** Splitting `def_use` splits the imports: source order is kept and entries are read independently. */
  lemma DefUseInOrder(t: Tmod, a: seq<Value>, b: seq<Value>)
    requires ArrayAt(t.toml, "def_use") == Some(a + b)
    ensures DefUse(t) == DefUse(Tmod(Single("def_use", Arr(a)))) + DefUse(Tmod(Single("def_use", Arr(b))))
  {
    FilterMapAppend(a, b, NonEmptyStr);
  }

  /** Splitting `def_mod` splits the declarations. */
  lemma DefModsInOrder(t: Tmod, a: seq<Value>, b: seq<Value>)
    requires ArrayAt(t.toml, "def_mod") == Some(a + b)
    ensures DefMods(t) == DefMods(Tmod(Single("def_mod", Arr(a)))) + DefMods(Tmod(Single("def_mod", Arr(b))))
  {
    FilterMapAppend(a, b, DefModOf);
  }

  /** Splitting a family splits its descriptors. */
  lemma TdTypesInOrder(t: Tgypes, name: string, formatComment: string -> string, a: seq<Value>, b: seq<Value>)
    requires ArrayAt(t.toml, name) == Some(a + b)
    ensures TdTypes(t, name, formatComment) ==
              TdTypes(Tgypes(Single(name, Arr(a))), name, formatComment)
              + TdTypes(Tgypes(Single(name, Arr(b))), name, formatComment)
  {
    var f := TdTypeReader(formatComment);
    FilterMapAppend(a, b, f);
    assert ArrayAt(Single(name, Arr(a)), name) == Some(a);
    assert ArrayAt(Single(name, Arr(b)), name) == Some(b);
    assert TdTypes(Tgypes(Single(name, Arr(a))), name, formatComment) == FilterMap(a, f);
    assert TdTypes(Tgypes(Single(name, Arr(b))), name, formatComment) == FilterMap(b, f);
  }

  /** A `def_use` element that is not a non-empty string is dropped without affecting the others. */
  lemma DefUseDropsEntry(t: Tmod, a: seq<Value>, x: Value, b: seq<Value>)
    requires ArrayAt(t.toml, "def_use") == Some(a + [x] + b)
    requires !(x.Str? && x.s != "")
    ensures DefUse(t) == DefUse(Tmod(Single("def_use", Arr(a + b))))
  {
    FilterMapSkip(a, x, b, NonEmptyStr);
  }

  /** An invalid `def_mod` element is dropped without affecting the others. */
  lemma DefModsDropsEntry(t: Tmod, a: seq<Value>, x: Value, b: seq<Value>)
    requires ArrayAt(t.toml, "def_mod") == Some(a + [x] + b)
    requires !IsDefModEntry(x)
    ensures DefMods(t) == DefMods(Tmod(Single("def_mod", Arr(a + b))))
  {
    FilterMapSkip(a, x, b, DefModOf);
  }

  /** An entry that does not survive is dropped without affecting the others. */
  lemma TdTypesDropsEntry(t: Tgypes, name: string, formatComment: string -> string,
                          a: seq<Value>, x: Value, b: seq<Value>)
    requires ArrayAt(t.toml, name) == Some(a + [x] + b)
    requires !IsTdEntry(x)
    ensures TdTypes(t, name, formatComment) == TdTypes(Tgypes(Single(name, Arr(a + b))), name, formatComment)
  {
    FilterMapSkip(a, x, b, TdTypeReader(formatComment));
    assert ArrayAt(Single(name, Arr(a + b)), name) == Some(a + b);
  }

  /**
   * The descriptors correspond one-to-one to the entries exactly when every
   * entry survives, and then the i-th descriptor is built from the i-th entry.
   */
  lemma TdTypesOneToOne(t: Tgypes, name: string, formatComment: string -> string, items: seq<Value>)
    requires ArrayAt(t.toml, name) == Some(items)
    ensures |TdTypes(t, name, formatComment)| == |items| <==> forall i :: 0 <= i < |items| ==> IsTdEntry(items[i])
    ensures (forall i :: 0 <= i < |items| ==> IsTdEntry(items[i])) ==>
              forall i :: 0 <= i < |items| ==>
                TdTypes(t, name, formatComment)[i] == TdTypeOf(items[i], formatComment).value
  {
    var f := TdTypeReader(formatComment);
    if forall i :: 0 <= i < |items| ==> IsTdEntry(items[i]) {
      FilterMapAllKept(items, f);
    } else {
      var k :| 0 <= k < |items| && !IsTdEntry(items[k]);
      FilterMapDropShortens(items, f, k);
    }
  }

  // ---------------------------------------------------------------------------
  // Round trips: every well-formed record is read back from the entry that spells it out

  /** Every list of non-empty import paths is read back unchanged. */
  lemma DefUseRoundTrip(xs: seq<string>)
    requires forall i :: 0 <= i < |xs| ==> xs[i] != ""
    ensures DefUse(Tmod(Single("def_use", StrArray(xs)))) == xs
  {
    var items := StrArray(xs).items;
    FilterMapAllKept(items, NonEmptyStr);
  }

  /** The `def_mod` entry that spells out a declaration. */
  function DefModEntry(d: DefMod): (r: Value)
    ensures IsDefModEntry(r)
  {
    Table(map["name" := Str(d.name), "macro_use" := Bool(d.macroUse)])
  }

  /** A declaration is read back from the entry that spells it out. */
  lemma DefModRoundTrip(d: DefMod)
    ensures DefModOf(DefModEntry(d)) == Some(d)
  {
    var e := DefModEntry(d);
    assert Get(e, "name") == Some(Str(d.name));
    assert Get(e, "macro_use") == Some(Bool(d.macroUse));
  }

  /** The `def_mod` entries that spell out a list of declarations. */
  function DefModEntries(ds: seq<DefMod>): (r: seq<Value>)
    ensures |r| == |ds| && forall i :: 0 <= i < |ds| ==> r[i] == DefModEntry(ds[i])
  {
    seq(|ds|, i requires 0 <= i < |ds| => DefModEntry(ds[i]))
  }

  /** Every list of declarations is read back unchanged from the entries that spell it out. */
  lemma DefModsRoundTrip(ds: seq<DefMod>)
    ensures DefMods(Tmod(Single("def_mod", Arr(DefModEntries(ds))))) == ds
  {
    var items := DefModEntries(ds);
    forall i | 0 <= i < |items| ensures DefModOf(items[i]) == Some(ds[i]) {
      DefModRoundTrip(ds[i]);
    }
    FilterMapAllKept(items, DefModOf);
    assert ArrayAt(Single("def_mod", Arr(items)), "def_mod") == Some(items);
  }

  /** Every list of strings is kept whole as a `uses` list, empty strings included. */
  lemma UsesRoundTrip(xs: seq<string>)
    ensures UsesOf(StrArray(xs).items) == xs
  {
    FilterMapAllKept(StrArray(xs).items, AnyStr);
  }

  /** Splitting a `uses` array splits its strings the same way: source order and repeats are kept. */
  lemma UsesInOrder(a: seq<Value>, b: seq<Value>)
    ensures UsesOf(a + b) == UsesOf(a) + UsesOf(b)
  {
    FilterMapAppend(a, b, AnyStr);
  }

  /** A non-string `uses` element is skipped without affecting the other strings. */
  lemma UsesDropsEntry(a: seq<Value>, x: Value, b: seq<Value>)
    requires !x.Str?
    ensures UsesOf(a + [x] + b) == UsesOf(a + b)
  {
    FilterMapSkip(a, x, b, AnyStr);
  }

  /** The family entry that spells out a descriptor. */
  function TdEntry(d: GTdType): (r: Value)
    ensures d.inner != "" ==> IsTdEntry(r)
  {
    var base := map["inner" := Str(d.inner), "typen" := Str(d.typen), "uses" := StrArray(d.uses)];
    Table(if d.comment.Some? then base["comment" := Str(d.comment.value)] else base)
  }

  /** The descriptor as read back: only its comment passes through the formatter. */
  function Formatted(d: GTdType, formatComment: string -> string): GTdType
  {
    d.(comment := if d.comment.Some? then Some(formatComment(d.comment.value)) else None)
  }

  /** A descriptor with a non-empty `inner` and `typen` is read back from its entry. */
  lemma TdTypeRoundTrip(d: GTdType, formatComment: string -> string)
    requires d.inner != "" && d.typen != ""
    ensures TdTypeOf(TdEntry(d), formatComment) == Some(Formatted(d, formatComment))
  {
    TdEntryFields(d);
    UsesRoundTrip(d.uses);
  }

  /** What `TdEntry` stores under each key. */
  lemma TdEntryFields(d: GTdType)
    ensures Get(TdEntry(d), "inner") == Some(Str(d.inner))
    ensures Get(TdEntry(d), "typen") == Some(Str(d.typen))
    ensures Get(TdEntry(d), "uses") == Some(StrArray(d.uses))
    ensures Get(TdEntry(d), "comment") == if d.comment.Some? then Some(Str(d.comment.value)) else None
  {
  }

  /** An entry without `typen` is read back with the synthesised name. */
  lemma TdTypeDefaultTypen(d: GTdType, formatComment: string -> string)
    requires d.inner != "" && d.typen == ""
    ensures TdTypeOf(TdEntry(d), formatComment) ==
              Some(Formatted(d, formatComment).(typen := DefaultTypen(d.inner)))
  {
    TdEntryFields(d);
    UsesRoundTrip(d.uses);
  }

  // ---------------------------------------------------------------------------
  // Worked examples

  /** An empty import path is skipped. */
  lemma DefUseExample()
    ensures DefUse(Tmod(Single("def_use", Arr([Str("crate::foo"), Str(""), Str("crate::bar")]))))
            == ["crate::foo", "crate::bar"]
  {
    var items := [Str("crate::foo"), Str(""), Str("crate::bar")];
    assert ArrayAt(Single("def_use", Arr(items)), "def_use") == Some(items);
    assert FilterMap(items[2..], NonEmptyStr) == ["crate::bar"];
    assert FilterMap(items[1..], NonEmptyStr) == ["crate::bar"];
    assert FilterMap(items, NonEmptyStr) == ["crate::foo", "crate::bar"];
  }

  /** A declaration without `name` is dropped; the other keeps its `macro_use`. */
  lemma DefModsExample()
    ensures DefMods(Tmod(Single("def_mod", Arr([Table(map["name" := Str("inner"), "macro_use" := Bool(true)]),
                                                 Table(map["macro_use" := Bool(false)])]))))
            == [DefMod("inner", true)]
  {
    var first := Table(map["name" := Str("inner"), "macro_use" := Bool(true)]);
    var second := Table(map["macro_use" := Bool(false)]);
    var items := [first, second];
    assert ArrayAt(Single("def_mod", Arr(items)), "def_mod") == Some(items);
    assert DefModOf(second) == None;
    assert DefModOf(first) == Some(DefMod("inner", true));
    assert items[1..] == [second];
    assert FilterMap(items[1..], DefModOf) == [];
    assert FilterMap(items, DefModOf) == [DefMod("inner", true)];
  }

  /** Non-string `uses` elements are skipped and the emitted name is synthesised from `inner`. */
  lemma TdTypeExample(formatComment: string -> string)
    ensures TdTypeOf(Table(map["inner" := Str("User"), "uses" := Arr([Str("a"), Int(1), Str("b"), Bool(true)])]),
                     formatComment)
            == Some(GTdType(["a", "b"], "TGUser", "User", None))
  {
    var uses := [Str("a"), Int(1), Str("b"), Bool(true)];
    var e := Table(map["inner" := Str("User"), "uses" := Arr(uses)]);
    assert FilterMap(uses[3..], AnyStr) == [];
    assert FilterMap(uses[2..], AnyStr) == ["b"];
    assert FilterMap(uses[1..], AnyStr) == ["b"];
    assert UsesOf(uses) == ["a", "b"];
    assert Get(e, "inner") == Some(Str("User"));
    assert Get(e, "uses") == Some(Arr(uses));
    assert Get(e, "typen") == None && Get(e, "comment") == None;
    assert DefaultTypen("User") == "TGUser";
  }

  /** An explicit `typen` wins over the synthesised one; a scalar `uses` drops the entry. */
  lemma TdTypeTypenAndUsesExample(formatComment: string -> string)
    ensures TdTypeOf(Table(map["inner" := Str("User"), "typen" := Str("Custom")]), formatComment).value.typen == "Custom"
    ensures TdTypeOf(Table(map["inner" := Str("User"), "uses" := Str("a")]), formatComment) == None
  {
    var e := Table(map["inner" := Str("User"), "typen" := Str("Custom")]);
    assert IsTdEntry(e);
  }
}
