# Build-time configuration model (`boml/tima.rs`)

This project models the configuration reader of the telegram-client code
generator in Dafny. At build time the generator reads one TOML document. It
reads two sections of that document through independent views:

- `Tmod` reads `tmod`. `def_use` lists the import paths and `def_mod` the
  sub-module declarations (`DefMod { name, macro_use }`).
- `Tgypes` reads `tgypes`. Each key names a family. Its value is an array of
  entries that become `GTdType { uses, typen, inner, comment }` descriptors.

There are two kinds of failure. A structural problem is fatal: the text does
not parse, or a section is missing or is not a table. It is modelled as an
`Err` of `LoadError`, and each error carries the whole offending document, as
the source's panic messages do. A malformed list entry is not an error: the
reader drops it and keeps the other entries.

Files:

- `wrappers.dfy` (`Wrappers`): `Option` and `Result`.
- `toml.dfy` (`Toml`): the parsed TOML `Value` and `Get`. `Get` behaves as
  `toml::Value::get` does: it finds keys only in a table.
- `iter.dfy` (`Iter`): `FilterMap`, the `iter().filter(..).map(..).collect()`
  chain. Lemmas say that it keeps order, that it treats each element on its
  own, and when it drops nothing.
- `tima.dfy` (`Boml`): the records, the three constructors, the accessors,
  and lemmas about the accessors.

Each accessor is a function. A per-entry function decides whether to keep an
entry and, if it does, what to build from it (`DefModOf`, `TdTypeOf`). The
contracts state the keep rule as an if-and-only-if over the entry's fields.
They also state what each kept field holds and what the default is. The
list accessors `def_use`, `def_mod` and `td_types`, and the `uses` step inside
`td_types`, are each paired with lemmas:

- an order lemma: splitting the input list splits the output;
- a drop lemma: a rejected entry leaves the rest of the output unchanged;
- a round-trip lemma: a well-formed record is read back from the entry that
  spells it out.

Details of the code that the model keeps:

- `uses` keeps empty strings: the code filters only on `is_str`
  (`build/boml/tima.rs:163`), while `def_use` drops them
  (`build/boml/tima.rs:70`).
- `def_mod` keeps an entry whose `name` is the empty string: the code checks
  only that `name` is a string (`build/boml/tima.rs:90-92`).
- A `uses` that is present but not an array drops the whole entry, while a
  `def_use` that is not an array only yields no imports
  (`build/boml/tima.rs:141-143`, `build/boml/tima.rs:66-67`).
- `Tima::new` builds `tmod` before `tgypes` (`build/boml/tima.rs:39-43`). When
  both sections are broken, the error is the one for `tmod`.

## Model

| member | source | states |
|---|---|---|
| `Boml.Section` | build/boml/tima.rs:57-62 | Succeeds if and only if the document is a table whose section is a table. On success it yields exactly that sub-table. On failure the error names the section and embeds the whole document, and it is `MissingSection` exactly when the key is absent. |
| `Boml.NewTmod` | build/boml/tima.rs:56-63 | `Tmod::new` succeeds if and only if `tmod` is a table, and the view then holds exactly that sub-table. Otherwise it returns the section error. |
| `Boml.NewTgypes` | build/boml/tima.rs:111-117 | `Tgypes::new` succeeds if and only if `tgypes` is a table, and the view then holds exactly that sub-table. Otherwise it returns the section error. |
| `Boml.NewTima` | build/boml/tima.rs:37-44 | Text that does not parse gives `Unparsable(text)`. Loading succeeds if and only if both sections are tables. On success the document and both views are the parsed tree and its two sub-tables. On failure the error is exactly that of the first broken section, `tmod` before `tgypes`, so it keeps the missing/not-a-table distinction. |
| `Iter.FilterMap` | build/boml/tima.rs:69-72 | The filter/map/collect chain. Its output is no longer than its input. Each output element comes from some input element, and each kept input element appears in the output. |
| `Boml.ArrayString` | build/boml/tima.rs:65-75 | When the key is absent or not an array, the result is empty. Otherwise every element is a non-empty string from the array, every non-empty string of the array is present, and the result is no longer than the array. |
| `Boml.DefUse` | build/boml/tima.rs:77-79 | `x` is an import if and only if `def_use` is an array that holds the non-empty string `x`. |
| `Boml.DefModOf` | build/boml/tima.rs:87-102 | An entry is kept if and only if it is a table with a string `name` and a `macro_use` that is absent or boolean. `name` is copied, and `macro_use` is false when absent. |
| `Boml.DefMods` | build/boml/tima.rs:81-107 | Empty when `def_mod` is absent or not an array. Otherwise each declaration is built from a valid entry, every valid entry yields one, and there are no more declarations than entries. |
| `Boml.Names` | build/boml/tima.rs:119-122 | A key is a family name if and only if it is a key of the section. Each name appears once. |
| `Boml.DefaultTypen` | build/boml/tima.rs:156 | The synthesised name is `TG` followed by `inner`, so `inner` can be recovered from it. |
| `Boml.UsesOf` | build/boml/tima.rs:158-168 | `x` is in `uses` if and only if the array holds the string `x`. The result is no longer than the array. |
| `Boml.TdTypeOf` | build/boml/tima.rs:130-172 | An entry survives if and only if it has a non-empty string `inner`, and `comment`, `uses` and `typen` are each absent or of the right kind. `inner` is copied. `typen` is the given string when it is non-empty, and `TG` + `inner` otherwise. `uses` is the string elements, or empty when absent. `comment` is present exactly when the key is, and holds the formatter's output. Both names are non-empty. |
| `Boml.TdTypes` | build/boml/tima.rs:124-177 | Empty when the family is missing or not an array. Otherwise each descriptor comes from a surviving entry, every surviving entry yields one, there are no more descriptors than entries, and every descriptor has a non-empty `inner` and `typen`. |
| `Boml.DefUseInOrder` | build/boml/tima.rs:65-78 | Splitting `def_use` into two parts splits the imports the same way: source order is kept. |
| `Boml.DefModsInOrder` | build/boml/tima.rs:83-106 | Splitting `def_mod` into two parts splits the declarations the same way. |
| `Boml.TdTypesInOrder` | build/boml/tima.rs:125-176 | Splitting a family's array splits its descriptors the same way. This holds even when one part is empty, which is the case the empty-array guard handles. |
| `Boml.DefUseDropsEntry` | build/boml/tima.rs:70 | An element that is not a non-empty string is dropped, and the other imports stay the same. |
| `Boml.DefModsDropsEntry` | build/boml/tima.rs:87-98 | An invalid `def_mod` entry is dropped, and the other declarations stay the same. |
| `Boml.TdTypesDropsEntry` | build/boml/tima.rs:130-148 | An entry that does not survive is dropped, and the other descriptors stay the same. |
| `Boml.TdTypesOneToOne` | build/boml/tima.rs:129-174 | There are as many descriptors as entries if and only if every entry survives. In that case descriptor i is built from entry i. |
| `Boml.DefUseRoundTrip` | build/boml/tima.rs:65-78 | Any list of non-empty import paths, written as a string array, is read back unchanged. |
| `Boml.DefModRoundTrip` | build/boml/tima.rs:99-102 | A declaration is read back from the table that spells out its `name` and `macro_use`. |
| `Boml.DefModsRoundTrip` | build/boml/tima.rs:81-107 | Any list of declarations is read back unchanged from the entries that spell it out. |
| `Boml.UsesRoundTrip` | build/boml/tima.rs:158-168 | Any list of strings, empty ones included, is kept whole as `uses`. |
| `Boml.UsesInOrder` | build/boml/tima.rs:158-168 | Splitting a `uses` array splits its strings the same way: source order and repeated strings are kept. |
| `Boml.UsesDropsEntry` | build/boml/tima.rs:163 | A non-string element of `uses` is skipped, and the other strings stay the same. |
| `Boml.TdTypeRoundTrip` | build/boml/tima.rs:130-172 | A descriptor with a non-empty `inner` and `typen` is read back from its entry. Only its comment goes through the formatter. |
| `Boml.TdTypeDefaultTypen` | build/boml/tima.rs:150-156 | An entry whose `typen` is empty is read back with `typen` equal to `TG` + `inner`. |
| `Boml.DefUseExample` | build/boml/tima.rs:65-78 | `["crate::foo", "", "crate::bar"]` gives the imports `["crate::foo", "crate::bar"]`: the empty string is skipped. |
| `Boml.DefModsExample` | build/boml/tima.rs:81-107 | A `def_mod` entry without `name` is dropped. The other declaration is kept with `macro_use` true. |
| `Boml.TdTypeExample` | build/boml/tima.rs:150-168 | `inner = "User"` with `uses = ["a", 1, "b", true]` gives `uses == ["a", "b"]`, `typen == "TGUser"` and no comment. |
| `Boml.TdTypeTypenAndUsesExample` | build/boml/tima.rs:141-156 | An explicit `typen = "Custom"` is kept. A scalar `uses` drops the entry. |

## Left out

- TOML parsing (`toml_text.parse()`) is a foreign library. `NewTima` takes the parser as a parameter, `parse: string -> Option<Value>`, and `None` stands for every parse error.
- `lima::format_comment` is not part of this model. `TdTypeOf` and `TdTypes` take it as a parameter, with its flag fixed to `false`, and nothing is assumed about it.
- The text of panic messages and `Debug` formatting are not modelled. An error keeps its kind (unparsable text, missing section, section not a table), the section name and the offending document or text.
- Names: the order of the family names follows the toml crate's map, which is not modelled. The contract states only which keys appear and that each appears once. It is a ghost function because it picks an order by choice.
- TOML integers are unbounded here (the crate uses `i64`). Floats and datetimes are bare tags. The reader never looks inside any of them.
- The `tmod()` and `tgypes()` getters of `Tima` are field accesses on the `Tima` datatype.
- The commented-out helpers `string`, `uses`, `typen`, `inner` and `comment` (`build/boml/tima.rs:180-220`) are dead code.
- `examples/tclient.rs`, `src/types/f_input_file.rs` and `src/handler/handler_receive.rs` are outside the configuration reader. They cover CLI and file I/O, JSON wrappers and runtime dispatch.
