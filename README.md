# Workshop landing page: registry, grouping and text helpers

A Dafny model of the logic behind a static academic landing page that lists
workshop ("taller") PDFs. The model covers three source files:

- `src/data/talleres.ts` (module `Datos`). It holds the `Taller` record, the
  three-entry registry `talleres`, and the id lookup `obtenerTallerPorId`. It
  also holds `agruparPorUnidad`, which groups the registry by unit. A missing
  or empty unit falls back to `Sin unidad`.
- `src/utils/helpers.ts` (module `Helpers`). It holds three helpers:
  `truncarTexto`, `obtenerExtension`, and the generic group-by `agruparPor`.
- `src/components/TallerList.tsx` (module `TallerList`). The list view groups
  its input into one `Todos los talleres` bucket, or by unit. An empty input
  shows the empty state. Otherwise the view renders one section per group and
  one card per workshop.

The source writes the same fold three times, each with its own key:
`talleres.reduce` / `array.reduce` over an empty `Record<string, T[]>`.
For each item the fold creates the entry if it is missing, then `push`es the
item onto it. Module `Agrupacion` models that fold once, generically:

- `Agrupado` is the specification function.
- `Diccionario` is a class for the record accumulator that is updated in
  place. It keeps the insertion order of keys. `Object.entries` gives keys
  back in that order, except that integer-like keys (such as `"1"`) come
  first in ascending numeric order; the model does not make that exception
  (see "Left out").
- `Agrupar` is the loop that runs the fold on a `Diccionario`. It is proved
  equal to `Agrupado`.

`Filtrar` (items with a given key, in order) and `PrimerasClaves` (distinct
keys in first-seen order) are independent reference definitions. The main
lemmas tie the fold to them. Groupings are ordered association lists
`seq<(string, seq<T>)>`. Optional fields are `Option` values (module
`Wrappers`).

The `Taller` record of `src/data/talleres.ts:10-18` is the datatype
`Datos.Taller`: four strings, plus the optional `unidad`, `semana` and
`fechaPublicacion`. `semana` is an `Option<EnteroSeguro>`, an integer of
magnitude at most 2^53 - 1: the safe integers of JavaScript, the range in
which every integer is held exactly by a number.
The registry `talleres` of `src/data/talleres.ts:20-50` is the constant
`Datos.Talleres`, with the three active entries and their exact strings. The
entries commented out at lines 51-81 are not part of it.

Two behaviours of the code are easy to miss:

- An empty-string unit also falls back to `Sin unidad`, because `||` treats
  `''` as false.
- With grouping off, an empty input groups into one empty bucket. Only the
  component's separate empty check turns that into the empty state.

## Model

| member | source | states |
|---|---|---|
| Agrupacion.Indice | src/data/talleres.ts:98 | the record lookup `acc[unidad]`: the position returned holds the key, no earlier position does, and `|g|` means the key is absent |
| Agrupacion.Agregar | src/utils/helpers.ts:72-75 | defines one step of the fold: append the item to the group with its key, creating that group at the end when the key is new |
| Agrupacion.Agrupado | src/utils/helpers.ts:69-79 | defines the specification grouping: `Agregar` applied to the items from first to last, starting from no groups |
| Agrupacion.Agrupar | src/utils/helpers.ts:69-79 | the reduce loop over an in-place record accumulator returns exactly the specification grouping `Agrupado(xs, clave)` |
| Agrupacion.PasoEntradas | src/utils/helpers.ts:72-75 | creating the entry if missing and then pushing is one `Agregar` step on the entries read back in insertion order |
| Agrupacion.Entradas | src/components/TallerList.tsx:50 | defines `Object.entries` of a record as its keys in insertion order, each paired with its array |
| Agrupacion.Diccionario.Entries | src/utils/helpers.ts:69-79 | defines the record the `reduce` returns, as `Object.entries` reads it back (src/components/TallerList.tsx:50): the `Entradas` of its key order and arrays |
| Agrupacion.Diccionario.constructor | src/utils/helpers.ts:78 | `{} as Record<string, T[]>`: a valid record with no keys and no entries |
| Agrupacion.Diccionario.Crear | src/utils/helpers.ts:72-74 | `acc[clave] = []` adds the key at the end of the insertion order with an empty array and changes nothing else |
| Agrupacion.Diccionario.Push | src/utils/helpers.ts:75 | `acc[clave].push(item)` appends the item to that key's array only; key order unchanged |
| Agrupacion.AgrupadoCaracterizado | src/utils/helpers.ts:69-79 | group keys are the input's distinct keys in first-seen order, and each group is exactly the input items with that key, in input order |
| Agrupacion.AgrupadoParticion | src/data/talleres.ts:95-105 | keys pairwise distinct, no empty group, an item is in a group iff its key is that group's key, and every item's key has a group |
| Agrupacion.AgrupadoMismoGrupo | src/utils/helpers.ts:71-75 | two input items share a group exactly when their string keys are equal |
| Agrupacion.AgregarConserva | src/utils/helpers.ts:75 | one fold step adds exactly the pushed item to the union of the groups |
| Agrupacion.AgrupadoConserva | src/utils/helpers.ts:69-79 | the groups together are a permutation of the input, so the group sizes sum to the input length |
| Agrupacion.AgrupadoUnaClave | src/data/talleres.ts:95-105 | a non-empty input whose items all share one key gives a single group holding the whole input in order |
| Agrupacion.AgrupadoExtensional | src/utils/helpers.ts:71 | the grouping depends only on the keys the items receive |
| Agrupacion.FiltrarMiembro | src/data/talleres.ts:97-101 | an item is among the key-filtered items iff it is in the input and has that key |
| Datos.TalleresValidos | src/data/talleres.ts:7 | the shipped registry (lines 20-50) has pairwise distinct ids, non-empty names and non-empty PDF paths |
| Datos.Buscar | src/data/talleres.ts:88 | `find`: None iff no entry has the id; otherwise the returned entry has the id and no earlier entry does |
| Datos.ObtenerTallerPorId | src/data/talleres.ts:87-89 | undefined exactly when no registry entry has the id; otherwise a registry entry with that id |
| Datos.BuscarUnico | src/data/talleres.ts:7 | with unique ids, looking up an entry's id returns that entry |
| Datos.ObtenerTallerPorIdRegistro | src/data/talleres.ts:20-89 | each active entry is found by its id; the commented-out `taller-04` is not |
| Datos.ClaveUnidad | src/data/talleres.ts:97 | the key is the unit when present and non-empty, and `Sin unidad` when it is absent or empty |
| Datos.PorUnidad | src/data/talleres.ts:94-106 | defines the unit grouping as the specification grouping `Agrupado` keyed by `ClaveUnidad` |
| Datos.PorUnidadUbica | src/data/talleres.ts:97-101 | each workshop is in the group of its unit, or in `Sin unidad` when the unit is absent or empty, and in no other group |
| Datos.PorUnidadConserva | src/data/talleres.ts:95-105 | grouping by unit is a permutation of the input, sizes sum to its length, and each group keeps input order |
| Datos.PorUnidadClaves | src/data/talleres.ts:98-101 | units appear once each in first-seen order and no group is empty |
| Datos.RegistroAgrupado | src/data/talleres.ts:20-50 | the shipped registry groups into the single group `Talleres 2026-1` holding all three entries |
| Datos.AgruparPorUnidad | src/data/talleres.ts:94-106 | the in-place fold over the registry yields the unit grouping, which is the one group `Talleres 2026-1` |
| Helpers.Corte | src/utils/helpers.ts:22 | defines where `substring(0, longitud)` cuts: at `longitud`, with a negative end counted as 0 |
| Helpers.TruncarTexto | src/utils/helpers.ts:20-23 | a text of length at most `longitud` comes back unchanged; a longer one gives its first `Corte(longitud)` characters (a negative `longitud` counts as 0) then `...`, length `Corte(longitud) + 3` |
| Helpers.TruncarTextoIdempotente | src/utils/helpers.ts:20-23 | truncating a truncated text changes nothing |
| Helpers.Partir | src/utils/helpers.ts:41 | `split('.')` yields at least one part and no part contains the separator |
| Helpers.UnirPartir | src/utils/helpers.ts:41 | joining the parts of a split with the separator gives back the text |
| Helpers.UltimaParte | src/utils/helpers.ts:41 | the last part is the suffix after the last separator; it is the whole text when there is no separator |
| Helpers.Minusculas | src/utils/helpers.ts:41 | defines `toLowerCase` character by character, mapping each ASCII upper-case letter to its lower-case letter and keeping every other character |
| Helpers.ObtenerExtension | src/utils/helpers.ts:40-42 | the lower-cased text after the last '.', never containing '.' or an upper-case letter; the whole name with no '.'; '' for a name ending in '.' |
| Helpers.Digitos | src/utils/helpers.ts:71 | a natural number is written as a non-empty string of decimal digits with no leading zero (it starts with `0` exactly for 0); `Cadena` applies it only to magnitudes of safe integers (at most 2^53 - 1, far below the 10^21 where `String` switches to exponent form) |
| Helpers.LeerDigitos | src/utils/helpers.ts:71 | reading the printed digits back gives the number |
| Helpers.Numeral | src/utils/helpers.ts:71 | `String(n)` for a safe integer: `-` exactly when negative, then decimal digits with no leading zero that read back as the magnitude; never starts with `u`, so never "undefined" |
| Helpers.Cadena | src/utils/helpers.ts:71 | `String(v)` is "undefined" exactly for a missing value or the string "undefined"; a string prints as itself; a safe integer prints as `-` exactly when negative, followed by decimal digits with no leading zero that read back as its magnitude |
| Helpers.Clave | src/utils/helpers.ts:71 | defines the grouping key of an item as `String` (`Cadena`) of the property's value |
| Helpers.AgruparPor | src/utils/helpers.ts:65-80 | the in-place fold keyed on `String(item[propiedad])` equals the specification grouping with that key |
| Helpers.Leer | src/utils/helpers.ts:71 | defines `taller[campo]` for each field: a string field as its text, `semana` as a number, and a missing optional field as `undefined` |
| Helpers.Propiedad | src/utils/helpers.ts:67 | defines the property argument `propiedad: keyof Taller` as the function reading that field with `Leer` |
| Helpers.AgruparPorIndefinido | src/utils/helpers.ts:71 | an item whose property is missing lands in the group keyed "undefined" |
| Helpers.AgruparPorUnidadCoincide | src/utils/helpers.ts:65-80 | on workshops that all have a non-empty unit, `agruparPor(ts, 'unidad')` equals the unit grouping |
| Helpers.AgruparPorUnidadDifiere | src/utils/helpers.ts:71 | for a single workshop with a missing or empty unit, `agruparPor` gives the one group "undefined" or "" and the unit grouping the one group `Sin unidad` |
| Helpers.AgruparPorUnidadSepara | src/utils/helpers.ts:71 | in any list, a workshop with a missing unit lies in the group "undefined" of `agruparPor(ts, 'unidad')`, one with an empty unit in the group "", and either lies in the group `Sin unidad` of the unit grouping |
| Helpers.RegistroPorSemana | src/utils/helpers.ts:65-80 | the shipped registry grouped on `semana` is the one group "1" |
| TallerList.Agrupados | src/components/TallerList.tsx:22-38 | defines `talleresAgrupados`: the single bucket `Todos los talleres` holding the input when the flag is off (its default), else the unit grouping |
| TallerList.TalleresAgrupados | src/components/TallerList.tsx:22-38 | the memoised grouping is one `Todos los talleres` bucket when the flag is off, else the unit grouping computed by the in-place fold |
| TallerList.AgrupadosPropiedades | src/components/TallerList.tsx:23-37 | both modes give a permutation of the input with distinct keys; flag off gives one bucket holding the input in order; groups are all non-empty unless the flag is off and the input is empty |
| TallerList.Tarjetas | src/components/TallerList.tsx:56-62 | defines the cards of a section: one per workshop, in order, keyed by its id |
| TallerList.Secciones | src/components/TallerList.tsx:50-55 | defines one section per group, in the groups' order, keyed by the group key, titled with it only when grouping by unit |
| TallerList.VistaDe | src/components/TallerList.tsx:40-66 | defines the rendered view: the empty state for an empty input, else the container of the sections of the grouping |
| TallerList.MostradosSecciones | src/components/TallerList.tsx:50-62 | the cards of the rendered sections show exactly the groups' workshops in order |
| TallerList.VistaDeMuestraTodo | src/components/TallerList.tsx:40-62 | the empty state exactly for an empty input, whatever the flag; otherwise one card per workshop, the same workshops, in input order when the flag is off |
| TallerList.VistaDeSecciones | src/components/TallerList.tsx:50-55 | sections have distinct keys, are non-empty, and carry a title exactly when grouping by unit |
| TallerList.Componente | src/components/TallerList.tsx:22-67 | computes the grouping, then renders the view `VistaDe` |
| TallerList.PaginaInicio | src/pages/Home.tsx:47-51 | the home page's list renders one titled section `Talleres 2026-1` with the three registry cards |

## Left out

- PDF handling is not modelled: `usePdfHandler.ts` and `handleOpenPdf` in `Home.tsx` are `fetch` HEAD requests, `window.open` and DOM anchors, all I/O.
- `formatearFecha` is not modelled: it is `Date` parsing and locale formatting.
- `esUrlValida` is not modelled: it calls the foreign `URL` constructor and `window.location`.
- `formatearTamano` is not modelled: it uses floating point `Math.log`, `Math.pow` and rounding.
- `generarIdUnico` is not modelled: it reads the clock and a random source.
- The markup of `Header`, `ContactSection` and `TallerCard` (with its Enter/Space key filter) and the re-exports of `index.ts` are not modelled. They are UI only. A card is a `(key, taller)` pair, and the `onOpen` callback is left out.
- Date strings in the registry are opaque strings.
- Agrupacion.Agrupar: assumes keys are plain strings. On a JavaScript object, keys such as `constructor` or `toString` are inherited and truthy, so `push` would throw, and `__proto__` is special. The model treats every key as an ordinary entry.
- Helpers.AgruparPor: `Object.entries` lists integer-like keys (such as `String(semana)`) in ascending numeric order before other keys. The model keeps insertion order for every key.
- TallerList.VistaDe: sections follow the insertion order of the grouping's keys. In JavaScript a unit named like an integer (such as `"2"`) would come first, in ascending numeric order. The model does not make that exception.
- Helpers.AgruparPor: property values are limited to missing, string and safe-integer number. Booleans, objects, non-integer numbers and integers beyond 2^53 - 1 are not modelled.
- Helpers.Cadena: numbers are safe integers only. Not modelled: fractions, NaN and infinities; integers beyond 2^53 - 1, which print the digits of the nearest double; and numbers from 10^21 up, which `String` writes in exponent form.
- Helpers.TruncarTexto: lengths are counted in Unicode characters, not UTF-16 code units. `longitud` is an integer, so NaN and fractional lengths are not modelled.
- Helpers.ObtenerExtension: `toLowerCase` is modelled for ASCII letters only.
- `semana` is a safe integer, not an arbitrary JavaScript number: fractions, NaN, infinities and integers beyond 2^53 - 1 are not modelled.
- Diccionario models the accumulator's arrays as values, so the aliasing between `acc[k]` and the array being pushed onto is not modelled. Nothing else holds those arrays.
