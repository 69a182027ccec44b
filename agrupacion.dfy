/**
 * The "group into a record" fold that the source writes three times
 * (`agruparPorUnidad` in src/data/talleres.ts, the grouped branch of
 * `TallerList`, and the generic `agruparPor` in src/utils/helpers.ts):
 *
 *   reduce over the items, starting from an empty `Record<string, T[]>`;
 *   for each item compute its key; if the record has no entry for the key,
 *   create an empty array there; then push the item onto that array.
 *
 * A `Record` read back with `Object.entries` is modelled as an ordered
 * association list whose keys are in insertion order.
 */
module Agrupacion {

  /** An ordered association list from group key to the group's items. */
  type Grupos<T> = seq<(string, seq<T>)>

  /** The keys of an association list, in order. */
  function Claves<T>(g: Grupos<T>): seq<string>
  {
    seq(|g|, i requires 0 <= i < |g| => g[i].0)
  }

  predicate Distintos(ks: seq<string>)
  {
    forall i, j :: 0 <= i < j < |ks| ==> ks[i] != ks[j]
  }

  /** Where key `k` sits in `g`; `|g|` when it is absent (the lookup `acc[clave]`). */
  function Indice<T>(g: Grupos<T>, k: string): (i: nat)
    ensures i <= |g|
    ensures i < |g| ==> g[i].0 == k
    ensures forall j :: 0 <= j < i ==> g[j].0 != k
  {
    if g == [] then 0
    else if g[0].0 == k then 0
    else 1 + Indice(g[1..], k)
  }

  /** One step of the fold: create the group for `k` if missing, then append `x` to it. */
  function Agregar<T>(g: Grupos<T>, k: string, x: T): Grupos<T>
  {
    var i := Indice(g, k);
    if i < |g| then g[i := (k, g[i].1 + [x])] else g + [(k, [x])]
  }

  /** The specification of the fold: `Agregar` applied to the items left to right. */
  function Agrupado<T>(xs: seq<T>, clave: T -> string): Grupos<T>
  {
    if xs == [] then []
    else
      var x := xs[|xs| - 1];
      Agregar(Agrupado(xs[..|xs| - 1], clave), clave(x), x)
  }

  // ---------------------------------------------------------------------
  // Independent reference definitions
  // ---------------------------------------------------------------------

  /** The items of `xs` whose key is `k`, in their order in `xs`. */
  function Filtrar<T>(xs: seq<T>, clave: T -> string, k: string): seq<T>
  {
    if xs == [] then []
    else
      var x := xs[|xs| - 1];
      Filtrar(xs[..|xs| - 1], clave, k) + (if clave(x) == k then [x] else [])
  }

  /** The distinct keys of `xs`, in the order of their first occurrence. */
  function PrimerasClaves<T>(xs: seq<T>, clave: T -> string): seq<string>
  {
    if xs == [] then []
    else
      var p := PrimerasClaves(xs[..|xs| - 1], clave);
      var k := clave(xs[|xs| - 1]);
      if k in p then p else p + [k]
  }

  /** All the groups' items, group after group. */
  function Aplanar<T>(g: Grupos<T>): seq<T>
  {
    if g == [] then [] else Aplanar(g[..|g| - 1]) + g[|g| - 1].1
  }

  lemma {:induction false} PrimerasClavesMiembro<T>(xs: seq<T>, clave: T -> string, k: string)
    ensures k in PrimerasClaves(xs, clave) <==> exists i :: 0 <= i < |xs| && clave(xs[i]) == k
  {
    if xs != [] {
      var init := xs[..|xs| - 1];
      PrimerasClavesMiembro(init, clave, k);
      if exists i :: 0 <= i < |init| && clave(init[i]) == k {
        var i :| 0 <= i < |init| && clave(init[i]) == k;
        assert clave(xs[i]) == k;
      }
      if exists i :: 0 <= i < |xs| && clave(xs[i]) == k {
        var i :| 0 <= i < |xs| && clave(xs[i]) == k;
        if i < |init| {
          assert clave(init[i]) == k;
        }
      }
    }
  }

  lemma {:induction false} PrimerasClavesDistintas<T>(xs: seq<T>, clave: T -> string)
    ensures Distintos(PrimerasClaves(xs, clave))
  {
    if xs != [] {
      PrimerasClavesDistintas(xs[..|xs| - 1], clave);
    }
  }

  lemma {:induction false} FiltrarMiembro<T>(xs: seq<T>, clave: T -> string, k: string, x: T)
    ensures x in Filtrar(xs, clave, k) <==> x in xs && clave(x) == k
  {
    if xs != [] {
      var init := xs[..|xs| - 1];
      FiltrarMiembro(init, clave, k, x);
      assert xs == init + [xs[|xs| - 1]];
    }
  }

  lemma FiltrarVacio<T>(xs: seq<T>, clave: T -> string, k: string)
    requires forall i :: 0 <= i < |xs| ==> clave(xs[i]) != k
    ensures Filtrar(xs, clave, k) == []
  {
  }

  // ---------------------------------------------------------------------
  // What the fold computes
  // ---------------------------------------------------------------------

  /**
   * The fold, characterised by the reference definitions: its keys are the
   * distinct keys of the input in first-seen order, and the group under each
   * key holds exactly the items with that key, in input order.
   */
  lemma {:induction false} AgrupadoCaracterizado<T>(xs: seq<T>, clave: T -> string)
    ensures Claves(Agrupado(xs, clave)) == PrimerasClaves(xs, clave)
    ensures forall i :: 0 <= i < |Agrupado(xs, clave)| ==>
      Agrupado(xs, clave)[i].1 == Filtrar(xs, clave, Agrupado(xs, clave)[i].0)
  {
    if xs != [] {
      var init, x := xs[..|xs| - 1], xs[|xs| - 1];
      var g, k := Agrupado(init, clave), clave(x);
      AgrupadoCaracterizado(init, clave);
      PrimerasClavesDistintas(init, clave);
      var i := Indice(g, k);
      var g' := Agregar(g, k, x);
      assert g' == Agrupado(xs, clave);
      if i < |g| {
        assert Claves(g') == Claves(g);
        forall j | 0 <= j < |g'|
          ensures g'[j].1 == Filtrar(xs, clave, g'[j].0)
        {
          if j != i {
            assert Claves(g)[j] != Claves(g)[i];
          }
        }
      } else {
        assert k !in Claves(g);
        PrimerasClavesMiembro(init, clave, k);
        FiltrarVacio(init, clave, k);
        assert Claves(g') == Claves(g) + [k];
      }
    }
  }

  /**
   * The groups partition the input: keys are pairwise distinct, no group is
   * empty, an item lies in a group exactly when its key is the group's key,
   * and every item's key has a group.
   */
  lemma AgrupadoParticion<T>(xs: seq<T>, clave: T -> string)
    ensures Distintos(Claves(Agrupado(xs, clave)))
    ensures forall i :: 0 <= i < |Agrupado(xs, clave)| ==> Agrupado(xs, clave)[i].1 != []
    ensures forall i, x :: 0 <= i < |Agrupado(xs, clave)| ==>
      (x in Agrupado(xs, clave)[i].1 <==> x in xs && clave(x) == Agrupado(xs, clave)[i].0)
    ensures forall j :: 0 <= j < |xs| ==> clave(xs[j]) in Claves(Agrupado(xs, clave))
  {
    var g := Agrupado(xs, clave);
    AgrupadoCaracterizado(xs, clave);
    PrimerasClavesDistintas(xs, clave);
    forall i, x | 0 <= i < |g|
      ensures x in g[i].1 <==> x in xs && clave(x) == g[i].0
    {
      assert g[i].1 == Filtrar(xs, clave, g[i].0);
      FiltrarMiembro(xs, clave, g[i].0, x);
    }
    forall i | 0 <= i < |g|
      ensures g[i].1 != []
    {
      assert Claves(g)[i] == g[i].0;
      PrimerasClavesMiembro(xs, clave, g[i].0);
      var j :| 0 <= j < |xs| && clave(xs[j]) == g[i].0;
      FiltrarMiembro(xs, clave, g[i].0, xs[j]);
      assert xs[j] in g[i].1;
    }
    forall j | 0 <= j < |xs|
      ensures clave(xs[j]) in Claves(g)
    {
      PrimerasClavesMiembro(xs, clave, clave(xs[j]));
    }
  }

  /** Two input items share a group exactly when their keys are equal. */
  lemma AgrupadoMismoGrupo<T>(xs: seq<T>, clave: T -> string, x: T, y: T)
    requires x in xs && y in xs
    ensures (exists i :: 0 <= i < |Agrupado(xs, clave)| &&
               x in Agrupado(xs, clave)[i].1 && y in Agrupado(xs, clave)[i].1)
            <==> clave(x) == clave(y)
  {
    var g := Agrupado(xs, clave);
    AgrupadoParticion(xs, clave);
    if clave(x) == clave(y) {
      var j :| 0 <= j < |xs| && xs[j] == x;
      var i :| 0 <= i < |g| && Claves(g)[i] == clave(x);
      assert x in g[i].1 && y in g[i].1;
    }
  }

  lemma {:induction false} AplanarPush<T>(g: Grupos<T>, i: nat, x: T)
    requires i < |g|
    ensures multiset(Aplanar(g[i := (g[i].0, g[i].1 + [x])])) == multiset(Aplanar(g)) + multiset{x}
  {
    var n := |g| - 1;
    var g' := g[i := (g[i].0, g[i].1 + [x])];
    assert Aplanar(g') == Aplanar(g'[..n]) + g'[n].1;
    assert Aplanar(g) == Aplanar(g[..n]) + g[n].1;
    if i == n {
      assert g'[..n] == g[..n];
    } else {
      assert g'[..n] == g[..n][i := (g[..n][i].0, g[..n][i].1 + [x])];
      assert g'[n] == g[n];
      AplanarPush(g[..n], i, x);
    }
  }

  /** One step of the fold adds exactly the new item. */
  lemma AgregarConserva<T>(g: Grupos<T>, k: string, x: T)
    ensures multiset(Aplanar(Agregar(g, k, x))) == multiset(Aplanar(g)) + multiset{x}
  {
    var i := Indice(g, k);
    if i < |g| {
      assert Agregar(g, k, x) == g[i := (g[i].0, g[i].1 + [x])];
      AplanarPush(g, i, x);
    } else {
      var g' := g + [(k, [x])];
      assert Agregar(g, k, x) == g';
      assert g'[..|g|] == g;
      assert Aplanar(g') == Aplanar(g) + [x];
    }
  }

  /** No item is lost or duplicated: the groups together are a permutation of the input. */
  lemma {:induction false} AgrupadoConserva<T>(xs: seq<T>, clave: T -> string)
    ensures multiset(Aplanar(Agrupado(xs, clave))) == multiset(xs)
    ensures |Aplanar(Agrupado(xs, clave))| == |xs|
  {
    if xs != [] {
      var init, x := xs[..|xs| - 1], xs[|xs| - 1];
      AgrupadoConserva(init, clave);
      AgregarConserva(Agrupado(init, clave), clave(x), x);
      assert xs == init + [x];
    }
    var flat := Aplanar(Agrupado(xs, clave));
    assert |multiset(flat)| == |flat|;
  }

  /** Items that all share one key form a single group holding the whole input. */
  lemma {:induction false} AgrupadoUnaClave<T>(xs: seq<T>, clave: T -> string, k: string)
    requires xs != []
    requires forall i :: 0 <= i < |xs| ==> clave(xs[i]) == k
    ensures Agrupado(xs, clave) == [(k, xs)]
  {
    var init, x := xs[..|xs| - 1], xs[|xs| - 1];
    if init == [] {
      assert xs == [x];
    } else {
      AgrupadoUnaClave(init, clave, k);
      assert Indice([(k, init)], k) == 0;
      assert init + [x] == xs;
    }
  }

  /** The fold depends only on the keys the key function gives to the input's items. */
  lemma {:induction false} AgrupadoExtensional<T>(xs: seq<T>, c1: T -> string, c2: T -> string)
    requires forall i :: 0 <= i < |xs| ==> c1(xs[i]) == c2(xs[i])
    ensures Agrupado(xs, c1) == Agrupado(xs, c2)
  {
    if xs != [] {
      AgrupadoExtensional(xs[..|xs| - 1], c1, c2);
    }
  }

  // ---------------------------------------------------------------------
  // The mutable accumulator and the fold itself
  // ---------------------------------------------------------------------

  /** `Object.entries` of a record whose keys were inserted in the order `orden`. */
  function Entradas<T>(orden: seq<string>, m: map<string, seq<T>>): Grupos<T>
    requires forall k :: k in orden ==> k in m
  {
    seq(|orden|, i requires 0 <= i < |orden| => (orden[i], m[orden[i]]))
  }

  /** The record accumulator `{} as Record<string, T[]>`, updated in place. */
  class Diccionario<T> {
    var orden: seq<string>
    var entradas: map<string, seq<T>>

    ghost predicate Valid()
      reads this
    {
      Distintos(orden) && forall k :: k in entradas <==> k in orden
    }

    /** The value read back by `Object.entries`. */
    function Entries(): Grupos<T>
      reads this
      requires Valid()
    {
      Entradas(orden, entradas)
    }

    constructor ()
      ensures Valid() && orden == [] && entradas == map[]
    {
      orden := [];
      entradas := map[];
    }

    /** `acc[clave] = []` on a key the record does not have yet. */
    method Crear(k: string)
      requires Valid() && k !in entradas
      modifies this
      ensures Valid()
      ensures orden == old(orden) + [k] && entradas == old(entradas)[k := []]
    {
      orden := orden + [k];
      entradas := entradas[k := []];
    }

    /** `acc[clave].push(x)` on a key the record has. */
    method Push(k: string, x: T)
      requires Valid() && k in entradas
      modifies this
      ensures Valid()
      ensures orden == old(orden) && entradas == old(entradas)[k := old(entradas)[k] + [x]]
    {
      entradas := entradas[k := entradas[k] + [x]];
    }
  }

  /** Creating-if-missing then pushing is one `Agregar` step on the entries. */
  lemma PasoEntradas<T>(orden: seq<string>, m: map<string, seq<T>>, k: string, x: T)
    requires Distintos(orden) && forall c :: c in m <==> c in orden
    ensures k in m ==>
      Entradas(orden, m[k := m[k] + [x]]) == Agregar(Entradas(orden, m), k, x)
    ensures k !in m ==>
      Entradas(orden + [k], m[k := []][k := [] + [x]]) == Agregar(Entradas(orden, m), k, x)
  {
    var e := Entradas(orden, m);
    var i := Indice(e, k);
    if k in m {
      var j :| 0 <= j < |orden| && orden[j] == k;
      assert e[j].0 == k;
      assert i <= j;
      assert e[i].0 == orden[i];
      var e' := Entradas(orden, m[k := m[k] + [x]]);
      forall t | 0 <= t < |e|
        ensures e'[t] == e[i := (k, e[i].1 + [x])][t]
      {
        if t != i {
          assert orden[t] != k;
        }
      }
    } else {
      assert k !in orden;
      assert forall t :: 0 <= t < |e| ==> e[t].0 == orden[t];
      var m' := m[k := []][k := [] + [x]];
      var e' := Entradas(orden + [k], m');
      assert m'[k] == [x];
      forall t | 0 <= t < |e'|
        ensures e'[t] == (e + [(k, [x])])[t]
      {
        if t < |orden| {
          assert orden[t] != k;
        }
      }
    }
  }

  /**
   * The fold as the source runs it: a loop over the items that updates one
   * record accumulator in place and reads it back at the end.
   */
  method Agrupar<T>(xs: seq<T>, clave: T -> string) returns (g: Grupos<T>)
    ensures g == Agrupado(xs, clave)
  {
    var acc := new Diccionario<T>();
    var i := 0;
    while i < |xs|
      invariant 0 <= i <= |xs|
      invariant acc.Valid()
      invariant acc.Entries() == Agrupado(xs[..i], clave)
    {
      var x := xs[i];
      var k := clave(x);
      ghost var orden, m := acc.orden, acc.entradas;
      PasoEntradas(orden, m, k, x);
      if k !in acc.entradas {
        acc.Crear(k);
      }
      acc.Push(k, x);
      assert xs[..i + 1][..i] == xs[..i];
      i := i + 1;
    }
    assert xs[..|xs|] == xs;
    g := acc.Entries();
  }
}
