/**
 * The workshop registry of src/data/talleres.ts: the `Taller` record, the
 * constant list `talleres`, the lookup `obtenerTallerPorId` and the
 * grouping `agruparPorUnidad`.
 */
module Datos {
  import opened Wrappers
  import opened Agrupacion

  /**
   * A safe integer of JavaScript, |n| <= 2^53 - 1: in this range every
   * integer is a number held exactly, and `String` prints it as its plain
   * decimal digits.
   */
  type EnteroSeguro = n: int | -0x1F_FFFF_FFFF_FFFF <= n <= 0x1F_FFFF_FFFF_FFFF

  /** One workshop entry; `unidad`, `semana` and `fechaPublicacion` are optional. */
  datatype Taller = Taller(
    id: string,
    nombre: string,
    descripcion: string,
    ruta: string,
    unidad: Option<string>,
    semana: Option<EnteroSeguro>,
    fechaPublicacion: Option<string>)

  /** The label of the bucket for workshops without a unit. */
  const SinUnidad: string := "Sin unidad"

  /** The registry as shipped: three active entries (the rest of the file is commented out). */
  const Talleres: seq<Taller> := [
    Taller(
      "taller-01",
      "1. Taller Experiencia Tatiana",
      "Despues de conocer la experiencia de la profesora Tatiana,doy aconocer mis aprendizajes.",
      "/pdfs/Taller_Tatiana__Sebastian_Mendoza.pdf",
      Some("Talleres 2026-1"), Some(1), Some("06-02-2026")),
    Taller(
      "taller-02",
      " 2. Taller Syllabus",
      "Respuesta a preguntas sobre ser, hacer y saber del profesor de matemáticas usando el capitulo 15 del libro del DIE (Aspectos esenciales en la constitución de la identidad del profesor de matemáticas) y el documento del Syllabus",
      "/pdfs/taller_syllabus_Sebastian_Mendoza.pdf",
      Some("Talleres 2026-1"), Some(1), Some("07-02-2026")),
    Taller(
      "taller-03",
      "Taller PreImpresos Estudiantes",
      "Esenarios para la docencia matemática, con base en los preimpresos de estudiantes.",
      "/pdfs/taller_preImpresos_Sebastian_Mendoza.pdf",
      Some("Talleres 2026-1"), Some(1), Some("10/02/2026"))
  ]

  /** What the registry's header asks of every entry: a unique id, a name and a path to the PDF. */
  predicate RegistroValido(ts: seq<Taller>)
  {
    (forall i, j :: 0 <= i < j < |ts| ==> ts[i].id != ts[j].id) &&
    (forall i :: 0 <= i < |ts| ==> ts[i].nombre != "" && ts[i].ruta != "")
  }

  lemma TalleresValidos()
    ensures RegistroValido(Talleres)
  {
    // The ids "taller-01" .. "taller-03" differ in their last character.
    assert Talleres[0].id[8] == '1' && Talleres[1].id[8] == '2' && Talleres[2].id[8] == '3';
    assert forall k :: 0 <= k < |Talleres| ==> Talleres[k].nombre != "" && Talleres[k].ruta != "";
  }


  // ---------------------------------------------------------------------
  // obtenerTallerPorId
  // ---------------------------------------------------------------------

  /** `ts.find(t => t.id === id)`: the first entry with that id, if any. */
  function Buscar(ts: seq<Taller>, id: string): (r: Option<Taller>)
    ensures r.None? <==> forall i :: 0 <= i < |ts| ==> ts[i].id != id
    ensures r.Some? ==> exists i :: 0 <= i < |ts| && ts[i] == r.value && r.value.id == id &&
                                    forall j :: 0 <= j < i ==> ts[j].id != id
  {
    if ts == [] then None
    else if ts[0].id == id then Some(ts[0])
    else
      var r := Buscar(ts[1..], id);
      assert r.Some? ==> exists i :: 1 <= i < |ts| && ts[i] == r.value && r.value.id == id &&
                                      forall j :: 0 <= j < i ==> ts[j].id != id by {
        if r.Some? {
          var i :| 0 <= i < |ts[1..]| && ts[1..][i] == r.value && r.value.id == id &&
                   forall j :: 0 <= j < i ==> ts[1..][j].id != id;
          assert ts[i + 1] == r.value;
          assert forall j :: 1 <= j < i + 1 ==> ts[j].id == ts[1..][j - 1].id;
        }
      }
      r
  }

  /** `obtenerTallerPorId`: look an id up in the registry. */
  function ObtenerTallerPorId(id: string): (r: Option<Taller>)
    ensures r.None? <==> forall i :: 0 <= i < |Talleres| ==> Talleres[i].id != id
    ensures r.Some? ==> r.value in Talleres && r.value.id == id
  {
    Buscar(Talleres, id)
  }

  /** In a registry with unique ids, looking up an entry's id yields that very entry. */
  lemma BuscarUnico(ts: seq<Taller>, k: nat)
    requires forall i, j :: 0 <= i < j < |ts| ==> ts[i].id != ts[j].id
    requires k < |ts|
    ensures Buscar(ts, ts[k].id) == Some(ts[k])
  {
  }

  /** No registry entry has the id `taller-04`: the ids differ in their last character. */
  lemma SinTaller04()
    ensures ObtenerTallerPorId("taller-04") == None
  {
    assert forall k :: 0 <= k < |Talleres| ==> Talleres[k].id[8] != "taller-04"[8];
  }

  /** Every active entry can be found by its id; the commented-out `taller-04` cannot. */
  lemma ObtenerTallerPorIdRegistro()
    ensures forall k :: 0 <= k < |Talleres| ==> ObtenerTallerPorId(Talleres[k].id) == Some(Talleres[k])
    ensures ObtenerTallerPorId("taller-04") == None
  {
    TalleresValidos();
    forall k | 0 <= k < |Talleres|
      ensures ObtenerTallerPorId(Talleres[k].id) == Some(Talleres[k])
    {
      BuscarUnico(Talleres, k);
    }
    SinTaller04();
  }

  // ---------------------------------------------------------------------
  // agruparPorUnidad
  // ---------------------------------------------------------------------

  /** `taller.unidad || 'Sin unidad'`: an absent or empty unit falls back to the label. */
  function ClaveUnidad(t: Taller): (k: string)
    ensures t.unidad.Some? && t.unidad.value != "" ==> k == t.unidad.value
    ensures t.unidad.None? || t.unidad == Some("") ==> k == SinUnidad
  {
    if t.unidad.Some? && t.unidad.value != "" then t.unidad.value else SinUnidad
  }

  /** The grouping of a list of workshops by unit. */
  function PorUnidad(ts: seq<Taller>): Grupos<Taller>
  {
    Agrupado(ts, ClaveUnidad)
  }

  /**
   * Each workshop lies in the group keyed by its unit, or in `Sin unidad`
   * when the unit is absent or empty, and in no other group.
   */
  lemma PorUnidadUbica(ts: seq<Taller>)
    ensures forall i, t :: 0 <= i < |PorUnidad(ts)| ==>
      (t in PorUnidad(ts)[i].1 <==> t in ts && ClaveUnidad(t) == PorUnidad(ts)[i].0)
    ensures forall j :: 0 <= j < |ts| && ts[j].unidad.Some? && ts[j].unidad.value != "" ==>
      exists i :: 0 <= i < |PorUnidad(ts)| && PorUnidad(ts)[i].0 == ts[j].unidad.value && ts[j] in PorUnidad(ts)[i].1
    ensures forall j :: 0 <= j < |ts| && (ts[j].unidad.None? || ts[j].unidad == Some("")) ==>
      exists i :: 0 <= i < |PorUnidad(ts)| && PorUnidad(ts)[i].0 == SinUnidad && ts[j] in PorUnidad(ts)[i].1
  {
    var g := PorUnidad(ts);
    AgrupadoParticion(ts, ClaveUnidad);
    forall j | 0 <= j < |ts|
      ensures exists i :: 0 <= i < |g| && g[i].0 == ClaveUnidad(ts[j]) && ts[j] in g[i].1
    {
      var i :| 0 <= i < |g| && Claves(g)[i] == ClaveUnidad(ts[j]);
      assert ts[j] in g[i].1;
    }
  }

  /**
   * Grouping by unit loses nothing and keeps order: the groups together are a
   * permutation of the input, their sizes add up to its length, and each
   * group lists its workshops in input order.
   */
  lemma PorUnidadConserva(ts: seq<Taller>)
    ensures multiset(Aplanar(PorUnidad(ts))) == multiset(ts)
    ensures |Aplanar(PorUnidad(ts))| == |ts|
    ensures forall i :: 0 <= i < |PorUnidad(ts)| ==>
      PorUnidad(ts)[i].1 == Filtrar(ts, ClaveUnidad, PorUnidad(ts)[i].0)
  {
    AgrupadoConserva(ts, ClaveUnidad);
    AgrupadoCaracterizado(ts, ClaveUnidad);
  }

  /** No group is empty, and the units appear once each, in the order they are first met. */
  lemma PorUnidadClaves(ts: seq<Taller>)
    ensures Claves(PorUnidad(ts)) == PrimerasClaves(ts, ClaveUnidad)
    ensures Distintos(Claves(PorUnidad(ts)))
    ensures forall i :: 0 <= i < |PorUnidad(ts)| ==> PorUnidad(ts)[i].1 != []
  {
    AgrupadoCaracterizado(ts, ClaveUnidad);
    AgrupadoParticion(ts, ClaveUnidad);
  }

  /** The shipped registry forms a single group, `Talleres 2026-1`, holding every entry. */
  lemma RegistroAgrupado()
    ensures PorUnidad(Talleres) == [("Talleres 2026-1", Talleres)]
  {
    assert forall k :: 0 <= k < |Talleres| ==> ClaveUnidad(Talleres[k]) == "Talleres 2026-1";
    AgrupadoUnaClave(Talleres, ClaveUnidad, "Talleres 2026-1");
  }

  /** `agruparPorUnidad()`: the registry grouped by unit, computed by the in-place fold. */
  method AgruparPorUnidad() returns (g: Grupos<Taller>)
    ensures g == PorUnidad(Talleres)
    ensures g == [("Talleres 2026-1", Talleres)]
  {
    g := Agrupar(Talleres, ClaveUnidad);
    RegistroAgrupado();
  }
}
