/**
 * The `TallerList` component of src/components/TallerList.tsx: it groups
 * the workshops it is given (all in one bucket, or by unit), shows an empty
 * state when there are none, and otherwise renders one section per group
 * and one card per workshop.
 */
module TallerList {
  import opened Wrappers
  import opened Agrupacion
  import opened Datos

  /** The label of the single bucket used when grouping by unit is off. */
  const TodosLosTalleres: string := "Todos los talleres"

  /** `<TallerCard key={taller.id} taller={taller} />` */
  datatype Tarjeta = Tarjeta(clave: string, taller: Taller)

  /** `<section key={unidad}>`, with an `<h2>` title only when grouping by unit. */
  datatype Seccion = Seccion(clave: string, titulo: Option<string>, tarjetas: seq<Tarjeta>)

  /** The empty state, or the container of sections. */
  datatype Vista = Vacia | Contenedor(secciones: seq<Seccion>)

  /** The value of `talleresAgrupados`. */
  function Agrupados(ts: seq<Taller>, porUnidad: bool := false): Grupos<Taller>
  {
    if !porUnidad then [(TodosLosTalleres, ts)] else PorUnidad(ts)
  }

  /** The `useMemo` callback: one bucket, or the in-place fold by unit. */
  method TalleresAgrupados(ts: seq<Taller>, porUnidad: bool := false) returns (g: Grupos<Taller>)
    ensures g == Agrupados(ts, porUnidad)
  {
    if !porUnidad {
      return [(TodosLosTalleres, ts)];
    }
    g := Agrupar(ts, ClaveUnidad);
  }

  /**
   * In both modes the grouping is a permutation of the input with distinct
   * keys; without units it is one bucket holding the input in order; and
   * every group is non-empty except the one bucket of an empty input.
   */
  lemma AgrupadosPropiedades(ts: seq<Taller>, porUnidad: bool)
    ensures multiset(Aplanar(Agrupados(ts, porUnidad))) == multiset(ts)
    ensures Distintos(Claves(Agrupados(ts, porUnidad)))
    ensures !porUnidad ==> |Agrupados(ts, porUnidad)| == 1 && Aplanar(Agrupados(ts, porUnidad)) == ts
    ensures (forall i :: 0 <= i < |Agrupados(ts, porUnidad)| ==> Agrupados(ts, porUnidad)[i].1 != [])
            <==> porUnidad || ts != []
  {
    var g := Agrupados(ts, porUnidad);
    if porUnidad {
      PorUnidadConserva(ts);
      PorUnidadClaves(ts);
    } else {
      assert g[..0] == [];
      assert g[0].1 == ts;
    }
  }

  function Tarjetas(ts: seq<Taller>): seq<Tarjeta>
  {
    seq(|ts|, i requires 0 <= i < |ts| => Tarjeta(ts[i].id, ts[i]))
  }

  function Secciones(g: Grupos<Taller>, porUnidad: bool): seq<Seccion>
  {
    seq(|g|, i requires 0 <= i < |g| =>
      Seccion(g[i].0, if porUnidad then Some(g[i].0) else None, Tarjetas(g[i].1)))
  }

  /** What the component renders: the empty check comes after the grouping. */
  function VistaDe(ts: seq<Taller>, porUnidad: bool := false): Vista
  {
    if |ts| == 0 then Vacia else Contenedor(Secciones(Agrupados(ts, porUnidad), porUnidad))
  }

  /** The workshops on the rendered cards, section after section. */
  function MostradosDe(ss: seq<Seccion>): seq<Taller>
  {
    if ss == [] then []
    else
      var cs := ss[|ss| - 1].tarjetas;
      MostradosDe(ss[..|ss| - 1]) + seq(|cs|, i requires 0 <= i < |cs| => cs[i].taller)
  }

  function Mostrados(v: Vista): seq<Taller>
  {
    match v
    case Vacia => []
    case Contenedor(ss) => MostradosDe(ss)
  }

  /** The cards of the sections show exactly the groups' items, in order. */
  lemma {:induction false} MostradosSecciones(g: Grupos<Taller>, porUnidad: bool)
    ensures MostradosDe(Secciones(g, porUnidad)) == Aplanar(g)
  {
    if g != [] {
      var n := |g| - 1;
      assert Secciones(g, porUnidad)[..n] == Secciones(g[..n], porUnidad);
      MostradosSecciones(g[..n], porUnidad);
      var cs := Secciones(g, porUnidad)[n].tarjetas;
      assert seq(|cs|, i requires 0 <= i < |cs| => cs[i].taller) == g[n].1;
    }
  }

  /**
   * An empty input renders the empty state whatever the flag; otherwise
   * there is one card per workshop (the same workshops, each once), all in
   * input order when grouping is off.
   */
  lemma VistaDeMuestraTodo(ts: seq<Taller>, porUnidad: bool)
    ensures VistaDe(ts, porUnidad) == Vacia <==> ts == []
    ensures multiset(Mostrados(VistaDe(ts, porUnidad))) == multiset(ts)
    ensures |Mostrados(VistaDe(ts, porUnidad))| == |ts|
    ensures !porUnidad ==> Mostrados(VistaDe(ts, porUnidad)) == ts
  {
    if ts != [] {
      var g := Agrupados(ts, porUnidad);
      AgrupadosPropiedades(ts, porUnidad);
      MostradosSecciones(g, porUnidad);
      assert Mostrados(VistaDe(ts, porUnidad)) == Aplanar(g);
    }
    var m := Mostrados(VistaDe(ts, porUnidad));
    assert |multiset(m)| == |m|;
  }

  /**
   * The rendered sections have distinct keys, are never empty, and carry a
   * title exactly when grouping by unit.
   */
  lemma VistaDeSecciones(ts: seq<Taller>, porUnidad: bool)
    requires ts != []
    ensures var ss := VistaDe(ts, porUnidad).secciones;
      (forall i, j :: 0 <= i < j < |ss| ==> ss[i].clave != ss[j].clave) &&
      (forall i :: 0 <= i < |ss| ==> ss[i].tarjetas != []) &&
      (forall i :: 0 <= i < |ss| ==> ss[i].titulo == if porUnidad then Some(ss[i].clave) else None)
  {
    var g := Agrupados(ts, porUnidad);
    AgrupadosPropiedades(ts, porUnidad);
    var ss := Secciones(g, porUnidad);
    assert VistaDe(ts, porUnidad).secciones == ss;
    forall i, j | 0 <= i < j < |ss|
      ensures ss[i].clave != ss[j].clave
    {
      assert Claves(g)[i] != Claves(g)[j];
    }
    forall i | 0 <= i < |ss|
      ensures ss[i].tarjetas != []
    {
      assert g[i].1 != [];
    }
  }

  /** The component: computes the grouping, then renders. */
  method Componente(ts: seq<Taller>, porUnidad: bool := false) returns (v: Vista)
    ensures v == VistaDe(ts, porUnidad)
  {
    var g := TalleresAgrupados(ts, porUnidad);
    if |ts| == 0 {
      return Vacia;
    }
    v := Contenedor(Secciones(g, porUnidad));
  }

  /** The home page passes the registry with grouping on: one titled section of three cards. */
  lemma PaginaInicio()
    ensures VistaDe(Talleres, true) ==
      Contenedor([Seccion("Talleres 2026-1", Some("Talleres 2026-1"), Tarjetas(Talleres))])
  {
    RegistroAgrupado();
  }
}
