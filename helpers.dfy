/**
 * The string and collection helpers of src/utils/helpers.ts:
 * `truncarTexto`, `obtenerExtension` and `agruparPor`.
 */
module Helpers {
  import opened Wrappers
  import opened Agrupacion
  import opened Datos

  // ---------------------------------------------------------------------
  // truncarTexto
  // ---------------------------------------------------------------------

  /** Where `substring(0, n)` cuts: a negative end is clamped to 0. */
  function Corte(n: int): nat
  {
    if n < 0 then 0 else n
  }

  /**
   * `truncarTexto(texto, longitud = 100)`: a text no longer than `longitud`
   * is returned as is; a longer one is cut to its first `longitud`
   * characters and followed by "...".
   */
  function TruncarTexto(texto: string, longitud: int := 100): (r: string)
    ensures |texto| <= longitud ==> r == texto
    ensures |texto| > longitud ==>
      |r| == Corte(longitud) + 3 &&
      r[..|r| - 3] == texto[..|r| - 3] &&
      r[|r| - 3..] == "..."
  {
    if |texto| <= longitud then texto else texto[..Corte(longitud)] + "..."
  }

  /** Truncating an already truncated text changes nothing. */
  lemma TruncarTextoIdempotente(texto: string, longitud: int)
    ensures TruncarTexto(TruncarTexto(texto, longitud), longitud) == TruncarTexto(texto, longitud)
  {
  }

  // ---------------------------------------------------------------------
  // obtenerExtension
  // ---------------------------------------------------------------------

  /** `s.split(sep)` for a one-character separator: never empty, no part holds `sep`. */
  function Partir(s: string, sep: char): (partes: seq<string>)
    ensures |partes| >= 1
    ensures forall i :: 0 <= i < |partes| ==> sep !in partes[i]
  {
    if s == [] then [""]
    else
      var p := Partir(s[..|s| - 1], sep);
      var c := s[|s| - 1];
      if c == sep then p + [""]
      else p[..|p| - 1] + [p[|p| - 1] + [c]]
  }

  /** `partes.join(sep)`. */
  function Unir(partes: seq<string>, sep: char): string
    requires |partes| >= 1
  {
    if |partes| == 1 then partes[0]
    else Unir(partes[..|partes| - 1], sep) + [sep] + partes[|partes| - 1]
  }

  /** Splitting and joining again gives back the original text. */
  lemma {:induction false} UnirPartir(s: string, sep: char)
    ensures Unir(Partir(s, sep), sep) == s
  {
    if s != [] {
      var init, c := s[..|s| - 1], s[|s| - 1];
      var p := Partir(init, sep);
      UnirPartir(init, sep);
      if c == sep {
        assert (p + [""])[..|p|] == p;
      } else {
        var q := p[..|p| - 1] + [p[|p| - 1] + [c]];
        assert q[..|q| - 1] == p[..|p| - 1];
        if |p| > 1 {
          assert Unir(q, sep) == Unir(p[..|p| - 1], sep) + [sep] + (p[|p| - 1] + [c]);
        }
      }
      assert init + [c] == s;
    }
  }

  /** The last part of `split` after one more character: empty after `sep`, else extended by it. */
  lemma UltimaPartePaso(s: string, sep: char)
    requires s != []
    ensures var p, q := Partir(s[..|s| - 1], sep), Partir(s, sep);
      q[|q| - 1] == if s[|s| - 1] == sep then [] else p[|p| - 1] + [s[|s| - 1]]
  {
  }

  /**
   * One step of `UltimaParte` when the last character of `s` is not `sep`:
   * the last part `u` of the text before it grows by that character.
   */
  lemma UltimaParteLetra(s: string, sep: char, u: string)
    requires s != [] && s[|s| - 1] != sep
    requires var init := s[..|s| - 1];
      |u| <= |init| && init[|init| - |u|..] == u &&
      (sep !in init ==> u == init) &&
      (sep in init ==> |u| < |init| && init[|init| - |u| - 1] == sep)
    ensures var v := u + [s[|s| - 1]];
      |v| <= |s| && s[|s| - |v|..] == v &&
      (sep !in s ==> v == s) &&
      (sep in s ==> |v| < |s| && s[|s| - |v| - 1] == sep)
  {
    var init, c, m := s[..|s| - 1], s[|s| - 1], |s| - 1 - |u|;
    assert s == init + [c];
    assert s[m..] == init[m..] + [c];
    assert sep in s <==> sep in init;
    if sep in init {
      assert s[m - 1] == init[m - 1];
    }
  }

  /**
   * The last part of a split is the text after the last separator: a suffix
   * of `s` preceded by `sep` when `s` holds one, and all of `s` otherwise.
   */
  lemma {:induction false} UltimaParte(s: string, sep: char)
    ensures var u := Partir(s, sep)[|Partir(s, sep)| - 1];
      |u| <= |s| && s[|s| - |u|..] == u &&
      (sep !in s ==> u == s) &&
      (sep in s ==> |u| < |s| && s[|s| - |u| - 1] == sep)
  {
    if s != [] {
      var init := s[..|s| - 1];
      UltimaParte(init, sep);
      UltimaPartePaso(s, sep);
      var p := Partir(init, sep);
      if s[|s| - 1] == sep {
        assert sep in s by { assert s[|s| - 1] == sep; }
      } else {
        UltimaParteLetra(s, sep, p[|p| - 1]);
      }
    }
  }

  /** ASCII `toLowerCase` of one character. */
  function Minuscula(c: char): char
  {
    if 'A' <= c <= 'Z' then (c as int + 32) as char else c
  }

  /** ASCII `toLowerCase`. */
  function Minusculas(s: string): string
  {
    seq(|s|, i requires 0 <= i < |s| => Minuscula(s[i]))
  }

  /**
   * `obtenerExtension(filename)`: the text after the last '.', in lower case.
   * `split` always yields at least one part, so `pop()` is never undefined,
   * and `|| ''` only maps "" to "".
   */
  function ObtenerExtension(filename: string): (ext: string)
    ensures '.' !in ext
    ensures forall i :: 0 <= i < |ext| ==> !('A' <= ext[i] <= 'Z')
    ensures '.' !in filename ==> ext == Minusculas(filename)
    ensures '.' in filename ==>
      |ext| < |filename| &&
      filename[|filename| - |ext| - 1] == '.' &&
      ext == Minusculas(filename[|filename| - |ext|..])
    ensures |filename| > 0 && filename[|filename| - 1] == '.' ==> ext == ""
  {
    var partes := Partir(filename, '.');
    UltimaParte(filename, '.');
    var r := Minusculas(partes[|partes| - 1]);
    if r == "" then "" else r
  }

  // ---------------------------------------------------------------------
  // agruparPor
  // ---------------------------------------------------------------------

  /** The property values a `Taller` can hold: missing, a string or a safe-integer number. */
  datatype Valor = Indefinido | Texto(s: string) | Numero(n: EnteroSeguro)

  function Digito(d: nat): char
    requires d < 10
  {
    "0123456789"[d]
  }

  /** Decimal digits of a natural number, most significant first. */
  function Digitos(n: nat): (r: string)
    ensures r != [] && forall i :: 0 <= i < |r| ==> '0' <= r[i] <= '9'
    ensures r[0] == '0' <==> n == 0
    ensures |r| > 1 ==> r[0] != '0'
  {
    if n < 10 then [Digito(n)] else Digitos(n / 10) + [Digito(n % 10)]
  }

  /** Reads a string of decimal digits back as a number. */
  function LeerDecimal(s: string): int
  {
    if s == [] then 0 else LeerDecimal(s[..|s| - 1]) * 10 + (s[|s| - 1] as int - '0' as int)
  }

  /** Writing a number in decimal and reading it back gives the number. */
  lemma {:induction false} LeerDigitos(n: nat)
    ensures LeerDecimal(Digitos(n)) == n
  {
    if n >= 10 {
      LeerDigitos(n / 10);
      assert Digitos(n)[..|Digitos(n)| - 1] == Digitos(n / 10);
    }
  }

  /**
   * `String(n)` for a safe integer: `-` when negative, then the decimal
   * digits of the magnitude with no leading zero.
   */
  function Numeral(n: EnteroSeguro): (r: string)
    ensures |r| > 0 && (r[0] == '-' <==> n < 0)
    ensures forall i :: (if n < 0 then 1 else 0) <= i < |r| ==> '0' <= r[i] <= '9'
    ensures LeerDecimal(if n < 0 then r[1..] else r) == (if n < 0 then -n else n)
    ensures var d := if n < 0 then 1 else 0; |r| > d + 1 ==> r[d] != '0'
    ensures r[0] != 'u'
  {
    if n < 0 then
      var m := Digitos(-n);
      LeerDigitos(-n);
      assert ("-" + m)[1..] == m;
      "-" + m
    else
      LeerDigitos(n);
      Digitos(n)
  }

  /**
   * `String(v)`: a missing value prints as "undefined", which is also what the
   * string "undefined" prints as; a string prints as itself; a number prints
   * as `-` when negative followed by the decimal digits of its magnitude with
   * no leading zero, so no number prints as "undefined".
   */
  function Cadena(v: Valor): (r: string)
    ensures r == "undefined" <==> v == Indefinido || v == Texto("undefined")
    ensures v.Texto? ==> r == v.s
    ensures v.Numero? ==>
      |r| > 0 && (r[0] == '-' <==> v.n < 0) &&
      (forall i :: (if v.n < 0 then 1 else 0) <= i < |r| ==> '0' <= r[i] <= '9') &&
      LeerDecimal(if v.n < 0 then r[1..] else r) == (if v.n < 0 then -v.n else v.n)
    ensures v.Numero? ==>
      var d := if v.n < 0 then 1 else 0;
      |r| > d + 1 ==> r[d] != '0'
  {
    match v
    case Indefinido => "undefined"
    case Texto(s) => s
    case Numero(n) => assert "undefined"[0] == 'u'; Numeral(n)
  }

  /** The grouping key `String(item[propiedad])`. */
  function Clave<T>(propiedad: T -> Valor): T -> string
  {
    x => Cadena(propiedad(x))
  }

  /** `agruparPor(array, propiedad)`, computed by the in-place fold. */
  method AgruparPor<T>(xs: seq<T>, propiedad: T -> Valor) returns (g: Grupos<T>)
    ensures g == Agrupado(xs, Clave(propiedad))
  {
    g := Agrupar(xs, Clave(propiedad));
  }

  /** An item whose property is missing goes to the group keyed "undefined". */
  lemma AgruparPorIndefinido<T>(xs: seq<T>, propiedad: T -> Valor, x: T)
    requires x in xs && propiedad(x) == Indefinido
    ensures exists i ::
              0 <= i < |Agrupado(xs, Clave(propiedad))| &&
              Agrupado(xs, Clave(propiedad))[i].0 == "undefined" &&
              x in Agrupado(xs, Clave(propiedad))[i].1
  {
    var g := Agrupado(xs, Clave(propiedad));
    AgrupadoParticion(xs, Clave(propiedad));
    var j :| 0 <= j < |xs| && xs[j] == x;
    assert Clave(propiedad)(xs[j]) == "undefined";
    var i :| 0 <= i < |g| && Claves(g)[i] == "undefined";
    assert x in g[i].1;
  }

  /** The fields of a `Taller` that `agruparPor` can be asked to group on. */
  datatype Campo = Id | Nombre | Descripcion | Ruta | Unidad | Semana | FechaPublicacion

  /** `taller[campo]`. */
  function Leer(t: Taller, c: Campo): Valor
  {
    match c
    case Id => Texto(t.id)
    case Nombre => Texto(t.nombre)
    case Descripcion => Texto(t.descripcion)
    case Ruta => Texto(t.ruta)
    case Unidad => if t.unidad.Some? then Texto(t.unidad.value) else Indefinido
    case Semana => if t.semana.Some? then Numero(t.semana.value) else Indefinido
    case FechaPublicacion => if t.fechaPublicacion.Some? then Texto(t.fechaPublicacion.value) else Indefinido
  }

  function Propiedad(c: Campo): Taller -> Valor
  {
    t => Leer(t, c)
  }

  /**
   * `agruparPor(ts, 'unidad')` and `agruparPorUnidad` agree on workshops that
   * all have a non-empty unit.
   */
  lemma {:induction false} AgruparPorUnidadCoincide(ts: seq<Taller>)
    requires forall t :: t in ts ==> t.unidad.Some? && t.unidad.value != ""
    ensures Agrupado(ts, Clave(Propiedad(Unidad))) == PorUnidad(ts)
  {
    var porCampo := Clave(Propiedad(Unidad));
    forall j | 0 <= j < |ts|
      ensures porCampo(ts[j]) == ClaveUnidad(ts[j])
    {
      var u := ts[j].unidad.value;
      assert Leer(ts[j], Unidad) == Texto(u);
      assert porCampo(ts[j]) == Cadena(Texto(u)) == u;
    }
    AgrupadoExtensional(ts, porCampo, ClaveUnidad);
  }

  /**
   * They differ otherwise: a missing unit is keyed "undefined" by one and
   * "Sin unidad" by the other, an empty unit "" by one and "Sin unidad" by
   * the other.
   */
  lemma AgruparPorUnidadDifiere(t: Taller)
    requires t.unidad.None? || t.unidad == Some("")
    ensures Agrupado([t], Clave(Propiedad(Unidad))) == [(if t.unidad.None? then "undefined" else "", [t])]
    ensures PorUnidad([t]) == [(SinUnidad, [t])]
  {
    assert [t][..0] == [];
    assert ClaveUnidad(t) == SinUnidad;
    assert Agrupado([t][..0], ClaveUnidad) == [];
    assert PorUnidad([t]) == Agrupado([t], ClaveUnidad) == Agregar([], SinUnidad, t);
  }

  /**
   * The same holds inside any list: a workshop whose unit is missing or empty
   * lies in the group keyed "undefined" or "" of `agruparPor(ts, 'unidad')`,
   * and in the group `Sin unidad` of the unit grouping.
   */
  lemma AgruparPorUnidadSepara(ts: seq<Taller>, t: Taller)
    requires t in ts && (t.unidad.None? || t.unidad == Some(""))
    ensures exists i :: 0 <= i < |Agrupado(ts, Clave(Propiedad(Unidad)))| &&
              Agrupado(ts, Clave(Propiedad(Unidad)))[i].0 == (if t.unidad.None? then "undefined" else "") &&
              t in Agrupado(ts, Clave(Propiedad(Unidad)))[i].1
    ensures exists i :: 0 <= i < |PorUnidad(ts)| && PorUnidad(ts)[i].0 == SinUnidad && t in PorUnidad(ts)[i].1
  {
    var porCampo := Clave(Propiedad(Unidad));
    var g := Agrupado(ts, porCampo);
    var k := if t.unidad.None? then "undefined" else "";
    assert porCampo(t) == Cadena(Leer(t, Unidad)) == k;
    AgrupadoParticion(ts, porCampo);
    var j :| 0 <= j < |ts| && ts[j] == t;
    var i :| 0 <= i < |g| && Claves(g)[i] == k;
    assert t in g[i].1;
    PorUnidadUbica(ts);
  }

  /** Grouping the shipped registry on `semana` gives the single group "1". */
  lemma RegistroPorSemana()
    ensures Agrupado(Talleres, Clave(Propiedad(Semana))) == [("1", Talleres)]
  {
    assert forall k :: 0 <= k < |Talleres| ==> Clave(Propiedad(Semana))(Talleres[k]) == "1";
    AgrupadoUnaClave(Talleres, Clave(Propiedad(Semana)), "1");
  }
}
