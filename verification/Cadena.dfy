/** The hash chain over an item's movements: `_calcular_hash` in `inventarios.py`. */
module Cadena {
  import opened Opciones

  datatype Tipo = Ingreso | Traslado

  /** A row of the movement log. `notas` is not hashed. */
  datatype Movimiento = Movimiento(id: string, item: string, tipo: Tipo, origen: Opcion<string>, destino: string,
                                   cantidad: int, notas: Opcion<string>, creadoEn: nat,
                                   hashAnterior: Opcion<string>, hashRegistro: string)

  /** The hash, and how a timestamp is written. */
  datatype Huella = Huella(sha: string -> string, iso: nat -> string)

  predicate SinBarra(s: string) {
    '|' !in s
  }

  /** The hash has no collisions and writes non-empty hexadecimal text; timestamps are written unambiguously
      and without '|'. */
  ghost predicate Fiel(h: Huella) {
    && (forall a, b :: h.sha(a) == h.sha(b) ==> a == b)
    && (forall a :: h.sha(a) != "" && SinBarra(h.sha(a)))
    && (forall t, u :: h.iso(t) == h.iso(u) ==> t == u)
    && (forall t :: SinBarra(h.iso(t)))
  }

  function Cifra(n: nat): char
    requires n < 10
  {
    ['0', '1', '2', '3', '4', '5', '6', '7', '8', '9'][n]
  }

  /** Python's str() of an integer. */
  function Natural(n: nat): string {
    if n < 10 then [Cifra(n)] else Natural(n / 10) + [Cifra(n % 10)]
  }

  function Entero(n: int): string {
    if n < 0 then "-" + Natural(-n) else Natural(n)
  }

  function NombreTipo(t: Tipo): string {
    match t case Ingreso => "ingreso" case Traslado => "traslado"
  }

  /** `x or ""` */
  function OVacio(s: Opcion<string>): string {
    match s case Algo(x) => x case Nada => ""
  }

  function Datos(m: Movimiento, h: Huella): string {
    m.id + "|" + (m.item + "|" + (NombreTipo(m.tipo) + "|" + (OVacio(m.origen) + "|" + m.destino + "|"
      + Entero(m.cantidad) + "|" + h.iso(m.creadoEn) + "|" + OVacio(m.hashAnterior))))
  }

  /** The two rows agree on everything that is hashed. */
  predicate MismosCampos(a: Movimiento, b: Movimiento) {
    && a.id == b.id && a.item == b.item && a.tipo == b.tipo && OVacio(a.origen) == OVacio(b.origen)
    && a.destino == b.destino && a.cantidad == b.cantidad && a.creadoEn == b.creadoEn
    && OVacio(a.hashAnterior) == OVacio(b.hashAnterior)
  }

  // ---------------------------------------------------------------- the joined text can be split again

  lemma CortaIzquierda(a: string, b: string, c: string, d: string)
    requires SinBarra(a) && SinBarra(c) && a + "|" + b == c + "|" + d
    ensures a == c && b == d
  {
    var t := a + "|" + b;
    assert t[|a|] == '|' && t[|c|] == '|';
    if |a| < |c| {
      assert false;
    }
    if |c| < |a| {
      assert false;
    }
    assert a == t[..|a|] && c == t[..|c|];
    assert b == t[|a| + 1..] && d == t[|c| + 1..];
  }

  lemma CortaDerecha(a: string, b: string, c: string, d: string)
    requires SinBarra(b) && SinBarra(d) && a + "|" + b == c + "|" + d
    ensures a == c && b == d
  {
    var t := a + "|" + b;
    assert t[|a|] == '|' && t[|c|] == '|';
    if |a| < |c| {
      assert false;
    }
    if |c| < |a| {
      assert false;
    }
    assert a == t[..|a|] && c == t[..|c|];
    assert b == t[|a| + 1..] && d == t[|c| + 1..];
  }

  lemma {:induction false} NaturalInyectivo(n: nat, m: nat)
    requires Natural(n) == Natural(m)
    ensures n == m
  {
    var s, t := Natural(n), Natural(m);
    assert s[|s| - 1] == Cifra(n % 10) && t[|t| - 1] == Cifra(m % 10);
    assert n % 10 == m % 10;
    if n >= 10 && m >= 10 {
      assert Natural(n / 10) == s[..|s| - 1] && Natural(m / 10) == t[..|t| - 1];
      NaturalInyectivo(n / 10, m / 10);
    } else {
      NaturalNoVacio(n / 10);
      NaturalNoVacio(m / 10);
    }
  }

  lemma NaturalNoVacio(n: nat)
    ensures |Natural(n)| >= 1
  {
  }

  lemma {:induction false} SoloCifras(n: nat)
    ensures forall c :: c in Natural(n) ==> '0' <= c <= '9'
  {
    if n >= 10 { SoloCifras(n / 10); }
  }

  lemma PrimerSigno(n: int)
    ensures Entero(n) != [] && (n < 0 <==> Entero(n)[0] == '-')
  {
    var a: nat := if n < 0 then -n else n;
    NaturalNoVacio(a);
    SoloCifras(a);
    assert Natural(a)[0] in Natural(a);
  }

  lemma ConSigno(m: int, n: nat)
    requires n > 0 && m + n == 0
    ensures Entero(m)[1..] == Natural(n)
  {
    assert Entero(m) == "-" + Natural(n);
  }

  lemma EnteroInyectivo(n: int, m: int)
    requires Entero(n) == Entero(m)
    ensures n == m
  {
    PrimerSigno(n);
    PrimerSigno(m);
    if n < 0 {
      var a: nat, b: nat := -n, -m;
      ConSigno(n, a);
      ConSigno(m, b);
      assert Natural(a) == Natural(b);
      NaturalInyectivo(a, b);
    } else {
      NaturalInyectivo(n, m);
    }
  }

  /** The number a text of decimal digits stands for. */
  function Valor(s: string): int {
    if s == "" then 0 else 10 * Valor(s[..|s| - 1]) + (s[|s| - 1] as int - '0' as int)
  }

  /** The digits written for a number are its decimal ones, the first not a zero unless it is the only one. */
  lemma {:induction false} NaturalEsDecimal(n: nat)
    ensures (forall c :: c in Natural(n) ==> '0' <= c <= '9') && Valor(Natural(n)) == n
    ensures Natural(n) != "" && (n > 0 ==> Natural(n)[0] != '0') && (n == 0 ==> Natural(n) == "0")
  {
    SoloCifras(n);
    if n >= 10 {
      NaturalEsDecimal(n / 10);
      var s := Natural(n);
      assert s[..|s| - 1] == Natural(n / 10) && s[|s| - 1] == Cifra(n % 10);
      UltimaCifra(n % 10);
    } else {
      UltimaCifra(n);
      assert Natural(n)[..0] == "";
    }
  }

  lemma UltimaCifra(d: nat)
    requires d < 10
    ensures '0' <= Cifra(d) <= '9' && Cifra(d) as int - '0' as int == d
  {
  }

  /** The texts one after another with a bar between. */
  function Unir(campos: seq<string>): string {
    if campos == [] then "" else if |campos| == 1 then campos[0] else campos[0] + "|" + Unir(campos[1..])
  }

  /** What is hashed is the bar-separated list of the eight fields, in this order: an arrival is "ingreso" and a
      transfer "traslado", what is missing is empty, and the amount is in decimal with its sign. */
  lemma DatosEnClaro(m: Movimiento, h: Huella)
    ensures Datos(m, h) == Unir([m.id, m.item, if m.tipo.Ingreso? then "ingreso" else "traslado",
      if m.origen.Nada? then "" else m.origen.valor, m.destino,
      if m.cantidad < 0 then "-" + Natural(-m.cantidad) else Natural(m.cantidad),
      h.iso(m.creadoEn), if m.hashAnterior.Nada? then "" else m.hashAnterior.valor])
  {
    OchoCampos(m.id, m.item, NombreTipo(m.tipo), OVacio(m.origen), m.destino, Entero(m.cantidad), h.iso(m.creadoEn),
               OVacio(m.hashAnterior));
  }

  lemma OchoCampos(a: string, b: string, c: string, d: string, e: string, f: string, g: string, i: string)
    ensures a + "|" + (b + "|" + (c + "|" + (d + "|" + e + "|" + f + "|" + g + "|" + i)))
         == Unir([a, b, c, d, e, f, g, i])
  {
    Reasociar(d, e, f, g, i);
    UnirOcho(a, b, c, d, e, f, g, i);
  }

  lemma Reasociar(o: string, a: string, b: string, c: string, d: string)
    ensures o + "|" + a + "|" + b + "|" + c + "|" + d == o + "|" + (a + "|" + (b + "|" + (c + "|" + d)))
  {
    assert o + "|" + a + "|" + b + "|" + c + "|" + d == o + "|" + a + "|" + b + ("|" + c + "|" + d);
    assert o + "|" + a + "|" + b + ("|" + c + "|" + d) == o + "|" + (a + "|" + (b + "|" + (c + "|" + d)));
  }

  lemma UnirOcho(a: string, b: string, c: string, d: string, e: string, f: string, g: string, i: string)
    ensures Unir([a, b, c, d, e, f, g, i])
         == a + "|" + (b + "|" + (c + "|" + (d + "|" + (e + "|" + (f + "|" + (g + "|" + i))))))
  {
    UnirMas(a, [b, c, d, e, f, g, i]);
    UnirMas(b, [c, d, e, f, g, i]);
    UnirMas(c, [d, e, f, g, i]);
    UnirMas(d, [e, f, g, i]);
    UnirMas(e, [f, g, i]);
    UnirMas(f, [g, i]);
    UnirMas(g, [i]);
  }

  lemma UnirMas(a: string, s: seq<string>)
    requires s != []
    ensures Unir([a] + s) == a + "|" + Unir(s)
  {
    assert ([a] + s)[1..] == s;
  }

  /** Identifiers are UUIDs and the previous hash is hexadecimal or empty. */
  predicate Escribible(m: Movimiento) {
    SinBarra(m.id) && SinBarra(m.item) && SinBarra(OVacio(m.hashAnterior))
  }

  /** Equal texts fix every field but the place where origen ends and destino begins. */
  lemma DatosFijan(a: Movimiento, b: Movimiento, h: Huella)
    requires Fiel(h) && Escribible(a) && Escribible(b) && Datos(a, h) == Datos(b, h)
    ensures a.id == b.id && a.item == b.item && a.tipo == b.tipo && a.cantidad == b.cantidad
    ensures a.creadoEn == b.creadoEn && OVacio(a.hashAnterior) == OVacio(b.hashAnterior)
    ensures OVacio(a.origen) + "|" + a.destino == OVacio(b.origen) + "|" + b.destino
  {
    var la := OVacio(a.origen) + "|" + a.destino;
    var lb := OVacio(b.origen) + "|" + b.destino;
    var ca, cb := la + "|" + Entero(a.cantidad), lb + "|" + Entero(b.cantidad);
    var ta, tb := ca + "|" + h.iso(a.creadoEn), cb + "|" + h.iso(b.creadoEn);
    var ra, rb := ta + "|" + OVacio(a.hashAnterior), tb + "|" + OVacio(b.hashAnterior);
    CortaIzquierda(a.id, a.item + "|" + (NombreTipo(a.tipo) + "|" + ra), b.id,
                   b.item + "|" + (NombreTipo(b.tipo) + "|" + rb));
    CortaIzquierda(a.item, NombreTipo(a.tipo) + "|" + ra, b.item, NombreTipo(b.tipo) + "|" + rb);
    CortaIzquierda(NombreTipo(a.tipo), ra, NombreTipo(b.tipo), rb);
    assert NombreTipo(a.tipo)[0] == NombreTipo(b.tipo)[0];
    CortaDerecha(ta, OVacio(a.hashAnterior), tb, OVacio(b.hashAnterior));
    CortaDerecha(ca, h.iso(a.creadoEn), cb, h.iso(b.creadoEn));
    EnteroSinBarra(a.cantidad);
    EnteroSinBarra(b.cantidad);
    CortaDerecha(la, Entero(a.cantidad), lb, Entero(b.cantidad));
    EnteroInyectivo(a.cantidad, b.cantidad);
  }

  lemma EnteroSinBarra(n: int)
    ensures SinBarra(Entero(n))
  {
    SoloCifras(if n < 0 then -n else n);
  }

  /** Two rows with the same hash agree on every hashed field exactly when their origins are equally long. */
  lemma MismoHash(a: Movimiento, b: Movimiento, h: Huella)
    requires Fiel(h) && Escribible(a) && Escribible(b)
    requires h.sha(Datos(a, h)) == h.sha(Datos(b, h))
    ensures MismosCampos(a, b) <==> |OVacio(a.origen)| == |OVacio(b.origen)|
    ensures SinBarra(OVacio(a.origen)) && SinBarra(OVacio(b.origen)) ==> MismosCampos(a, b)
  {
    DatosFijan(a, b, h);
    var la, lb := OVacio(a.origen) + "|" + a.destino, OVacio(b.origen) + "|" + b.destino;
    assert OVacio(a.origen) == la[..|OVacio(a.origen)|] && OVacio(b.origen) == lb[..|OVacio(b.origen)|];
    assert a.destino == la[|OVacio(a.origen)| + 1..] && b.destino == lb[|OVacio(b.origen)| + 1..];
    if SinBarra(OVacio(a.origen)) && SinBarra(OVacio(b.origen)) {
      CortaIzquierda(OVacio(a.origen), a.destino, OVacio(b.origen), b.destino);
    }
  }

  // ---------------------------------------------------------------- which rows share a text

  /** Origin and destination as they stand side by side in the hashed text. */
  function Lugares(m: Movimiento): string {
    OVacio(m.origen) + "|" + m.destino
  }

  /** The row that divides them at position `k` instead. */
  function Gemelo(m: Movimiento, k: nat): Movimiento
    requires k < |Lugares(m)|
  {
    m.(origen := Algo(Lugares(m)[..k]), destino := Lugares(m)[k + 1..])
  }

  predicate CorteEn(m: Movimiento, k: int) {
    0 <= k < |Lugares(m)| && Lugares(m)[k] == '|'
  }

  /** Every bar, of origin or destination, gives a row with the same text, and a different one unless it is the bar
      that divides the two. */
  lemma GemeloMismoTexto(m: Movimiento, k: nat, h: Huella)
    requires CorteEn(m, k)
    ensures Datos(Gemelo(m, k), h) == Datos(m, h)
    ensures MismosCampos(m, Gemelo(m, k)) <==> k == |OVacio(m.origen)|
  {
    var l := Lugares(m);
    assert l[..k] + "|" + l[k + 1..] == l;
    assert |l[..k]| == k;
    if k == |OVacio(m.origen)| {
      assert l[..k] == OVacio(m.origen) && l[k + 1..] == m.destino;
    }
  }

  lemma MismosCamposMismoTexto(a: Movimiento, b: Movimiento, h: Huella)
    requires MismosCampos(a, b)
    ensures Datos(a, h) == Datos(b, h)
  {
  }

  /** And there are no others: two rows have the same text if and only if one divides the other's places at a bar. */
  lemma MismoTextoSii(a: Movimiento, b: Movimiento, h: Huella)
    requires Fiel(h) && Escribible(a) && Escribible(b)
    ensures Datos(a, h) == Datos(b, h) <==> exists k: nat :: CorteEn(a, k) && MismosCampos(Gemelo(a, k), b)
  {
    if Datos(a, h) == Datos(b, h) {
      DatosFijan(a, b, h);
      var k := |OVacio(b.origen)|;
      assert Lugares(a) == Lugares(b) && Lugares(b)[k] == '|';
      assert Lugares(b)[..k] == OVacio(b.origen) && Lugares(b)[k + 1..] == b.destino;
      assert CorteEn(a, k) && MismosCampos(Gemelo(a, k), b);
    }
    if k: nat :| CorteEn(a, k) && MismosCampos(Gemelo(a, k), b) {
      GemeloMismoTexto(a, k, h);
      MismosCamposMismoTexto(Gemelo(a, k), b, h);
    }
  }

  ghost predicate FijaCampos(a: Movimiento, h: Huella) {
    forall b :: Escribible(b) && Datos(b, h) == Datos(a, h) ==> MismosCampos(a, b)
  }

  /** So a row's text pins its fields if and only if neither place holds a bar. */
  lemma FijaCamposSii(a: Movimiento, h: Huella)
    requires Fiel(h) && Escribible(a)
    ensures FijaCampos(a, h) <==> SinBarra(OVacio(a.origen)) && SinBarra(a.destino)
  {
    if SinBarra(OVacio(a.origen)) && SinBarra(a.destino) {
      forall b | Escribible(b) && Datos(b, h) == Datos(a, h) ensures MismosCampos(a, b) {
        MismoTextoSii(a, b, h);
        var k: nat :| CorteEn(a, k) && MismosCampos(Gemelo(a, k), b);
        BarraDeUno(a, k);
        GemeloMismoTexto(a, k, h);
      }
    } else {
      var k: nat := UnaBarra(a);
      GemeloMismoTexto(a, k, h);
      assert Escribible(Gemelo(a, k));
    }
  }

  lemma BarraDeUno(a: Movimiento, k: nat)
    requires CorteEn(a, k)
    ensures k == |OVacio(a.origen)| || !SinBarra(OVacio(a.origen)) || !SinBarra(a.destino)
  {
    var o := |OVacio(a.origen)|;
    if k < o {
      assert OVacio(a.origen)[k] == '|';
    } else if k > o {
      assert a.destino[k - o - 1] == '|';
    }
  }

  lemma UnaBarra(a: Movimiento) returns (k: nat)
    requires !SinBarra(OVacio(a.origen)) || !SinBarra(a.destino)
    ensures CorteEn(a, k) && k != |OVacio(a.origen)|
  {
    var o := |OVacio(a.origen)|;
    if !SinBarra(OVacio(a.origen)) {
      k :| 0 <= k < o && OVacio(a.origen)[k] == '|';
    } else {
      var j: nat :| 0 <= j < |a.destino| && a.destino[j] == '|';
      k := o + 1 + j;
      assert Lugares(a)[k] == a.destino[j];
    }
  }

  /** A row that the ledger can hold: only a transfer has an origin, and no place is empty. */
  predicate Registrable(m: Movimiento) {
    m.destino != "" && (m.tipo == Ingreso <==> OVacio(m.origen) == "")
  }

  ghost predicate FijaRegistrables(a: Movimiento, h: Huella) {
    forall b :: Escribible(b) && Registrable(b) && Datos(b, h) == Datos(a, h) ==> MismosCampos(a, b)
  }

  /** A bar that divides the two places elsewhere and leaves neither empty. */
  predicate OtroCorte(a: Movimiento, k: int) {
    CorteEn(a, k) && 0 < k < |Lugares(a)| - 1 && k != |OVacio(a.origen)|
  }

  lemma RegistrablesIguales(a: Movimiento, b: Movimiento)
    requires Registrable(a) && Registrable(b) && a.tipo == b.tipo && Lugares(a) == Lugares(b)
    ensures (OVacio(a.origen) == OVacio(b.origen) && a.destino == b.destino)
         || (a.tipo == Traslado && OtroCorte(a, |OVacio(b.origen)|))
  {
    var l, o, u := Lugares(a), |OVacio(a.origen)|, |OVacio(b.origen)|;
    assert l[u] == Lugares(b)[u] == '|';
    assert |l| == u + 1 + |b.destino|;
    if o == u {
      assert OVacio(a.origen) == l[..o] == OVacio(b.origen) && a.destino == l[o + 1..] == b.destino;
    }
  }

  /** Among the rows a ledger can hold, an arrival is always pinned; a transfer is unless its places can be divided
      elsewhere leaving neither empty, that is, at a bar past the first character of the origin or before the last
      one of the destination. */
  lemma FijaRegistrablesSii(a: Movimiento, h: Huella)
    requires Fiel(h) && Escribible(a) && Registrable(a)
    ensures FijaRegistrables(a, h) <==> a.tipo == Ingreso || forall k: nat :: !OtroCorte(a, k)
  {
    forall b | Escribible(b) && Registrable(b) && Datos(b, h) == Datos(a, h)
      ensures MismosCampos(a, b) || (a.tipo == Traslado && OtroCorte(a, |OVacio(b.origen)|))
    {
      DatosFijan(a, b, h);
      RegistrablesIguales(a, b);
    }
    forall k: nat | CorteEn(a, k)
      ensures Datos(Gemelo(a, k), h) == Datos(a, h) && Escribible(Gemelo(a, k))
      ensures MismosCampos(a, Gemelo(a, k)) <==> k == |OVacio(a.origen)|
      ensures a.tipo == Traslado && OtroCorte(a, k) ==> Registrable(Gemelo(a, k))
    {
      GemeloMismoTexto(a, k, h);
    }
  }

  // ---------------------------------------------------------------- such a hash is conceivable

  /** A text rewritten without '|' in a way that can be undone: a prefix code. */
  function SinBarras(s: string): string {
    if s == "" then "" else (if s[0] == '|' then "ab" else if s[0] == 'a' then "aa" else [s[0]]) + SinBarras(s[1..])
  }

  lemma {:induction false} SinBarrasInyectivo(s: string, t: string)
    requires SinBarras(s) == SinBarras(t)
    ensures s == t
  {
    if s != "" && t != "" {
      var x, y := SinBarras(s), SinBarras(t);
      var k := if s[0] == '|' || s[0] == 'a' then 2 else 1;
      assert x[0] == y[0] && (k == 2 ==> x[1] == y[1]);
      assert s[0] == t[0];
      assert x[k..] == SinBarras(s[1..]) && y[k..] == SinBarras(t[1..]);
      SinBarrasInyectivo(s[1..], t[1..]);
      assert s == [s[0]] + s[1..] && t == [t[0]] + t[1..];
    }
  }

  lemma {:induction false} SinBarrasCumple(s: string)
    ensures SinBarra(SinBarras(s))
  {
    if s != "" { SinBarrasCumple(s[1..]); }
  }

  /** What is asked of the hash and of the timestamps can be had. */
  lemma FielEsPosible()
    ensures exists h :: Fiel(h)
  {
    var h := Huella(s => "h" + SinBarras(s), Natural);
    forall a, b | h.sha(a) == h.sha(b) ensures a == b {
      assert h.sha(a)[1..] == SinBarras(a) && h.sha(b)[1..] == SinBarras(b);
      SinBarrasInyectivo(a, b);
    }
    forall a ensures SinBarra(h.sha(a)) { SinBarrasCumple(a); }
    forall t: nat, u: nat | h.iso(t) == h.iso(u) ensures t == u { NaturalInyectivo(t, u); }
    forall t: nat ensures SinBarra(h.iso(t)) { SoloCifras(t); }
    assert Fiel(h);
  }

  // ---------------------------------------------------------------- chains

  function Cola(l: seq<Movimiento>): string {
    if l == [] then "" else l[|l| - 1].hashRegistro
  }

  /** Every hash recomputes and every movement names the one before it. */
  predicate Encadenada(l: seq<Movimiento>, h: Huella) {
    forall i :: 0 <= i < |l| ==>
      l[i].hashRegistro == h.sha(Datos(l[i], h)) && OVacio(l[i].hashAnterior) == Cola(l[..i])
  }

  predicate OrigenesSinBarra(l: seq<Movimiento>) {
    forall i :: 0 <= i < |l| ==> SinBarra(l[i].id) && SinBarra(l[i].item) && SinBarra(OVacio(l[i].origen))
  }

  predicate MismosMovimientos(l: seq<Movimiento>, k: seq<Movimiento>) {
    |l| == |k| && forall i :: 0 <= i < |l| ==> MismosCampos(l[i], k[i])
  }

  lemma PrefijoSinBarra(l: seq<Movimiento>, n: nat)
    requires OrigenesSinBarra(l) && n <= |l|
    ensures OrigenesSinBarra(l[..n])
  {
  }

  lemma UnoMasIgual(l: seq<Movimiento>, k: seq<Movimiento>)
    requires l != [] && k != [] && MismosMovimientos(l[..|l| - 1], k[..|k| - 1])
    requires MismosCampos(l[|l| - 1], k[|k| - 1])
    ensures MismosMovimientos(l, k)
  {
    forall i | 0 <= i < |l| - 1 ensures MismosCampos(l[i], k[i]) {
      assert MismosCampos(l[..|l| - 1][i], k[..|k| - 1][i]);
    }
  }

  /** The last hash fixes the whole history: two chains that end in the same hash have the same length and
      agree on every hashed field of every movement. */
  lemma {:induction false} CadenaFijaHistoria(l: seq<Movimiento>, k: seq<Movimiento>, h: Huella)
    requires Fiel(h) && Encadenada(l, h) && Encadenada(k, h) && OrigenesSinBarra(l) && OrigenesSinBarra(k)
    requires Cola(l) == Cola(k)
    ensures MismosMovimientos(l, k)
  {
    ColaVaciaSii(l, h);
    ColaVaciaSii(k, h);
    if l != [] {
      UltimosIguales(l, k, h);
      SinUltimo(l, h);
      SinUltimo(k, h);
      CadenaFijaHistoria(l[..|l| - 1], k[..|k| - 1], h);
      UnoMasIgual(l, k);
    }
  }

  lemma SinUltimo(l: seq<Movimiento>, h: Huella)
    requires Encadenada(l, h) && OrigenesSinBarra(l) && l != []
    ensures Encadenada(l[..|l| - 1], h) && OrigenesSinBarra(l[..|l| - 1])
  {
    PrefijoEncadenado(l, |l| - 1, h);
    PrefijoSinBarra(l, |l| - 1);
  }

  lemma ColaVaciaSii(l: seq<Movimiento>, h: Huella)
    requires Fiel(h) && Encadenada(l, h)
    ensures Cola(l) == "" <==> l == []
  {
  }

  lemma UltimosIguales(l: seq<Movimiento>, k: seq<Movimiento>, h: Huella)
    requires Fiel(h) && Encadenada(l, h) && Encadenada(k, h) && OrigenesSinBarra(l) && OrigenesSinBarra(k)
    requires Cola(l) == Cola(k) && l != [] && k != []
    ensures MismosCampos(l[|l| - 1], k[|k| - 1]) && Cola(l[..|l| - 1]) == Cola(k[..|k| - 1])
  {
    var n, m := |l| - 1, |k| - 1;
    PrefijoEncadenado(l, n, h);
    PrefijoEncadenado(k, m, h);
    ColaSinBarra(l[..n], h);
    ColaSinBarra(k[..m], h);
    MismoHash(l[n], k[m], h);
  }

  lemma PrefijoEncadenado(l: seq<Movimiento>, n: nat, h: Huella)
    requires Encadenada(l, h) && n <= |l|
    ensures Encadenada(l[..n], h)
  {
    forall i | 0 <= i < n
      ensures OVacio(l[..n][i].hashAnterior) == Cola(l[..n][..i])
    {
      assert l[..n][..i] == l[..i];
    }
  }

  lemma ColaSinBarra(l: seq<Movimiento>, h: Huella)
    requires Fiel(h) && Encadenada(l, h)
    ensures SinBarra(Cola(l))
  {
  }

  lemma ColaMasUno(l: seq<Movimiento>, m: Movimiento, h: Huella)
    requires Encadenada(l, h) && m.hashRegistro == h.sha(Datos(m, h)) && OVacio(m.hashAnterior) == Cola(l)
    ensures Encadenada(l + [m], h)
  {
    forall i | 0 <= i < |l| + 1
      ensures (l + [m])[i].hashRegistro == h.sha(Datos((l + [m])[i], h))
      ensures OVacio((l + [m])[i].hashAnterior) == Cola((l + [m])[..i])
    {
      assert (l + [m])[..i] == l[..i];
      if i == |l| { assert l[..i] == l; }
    }
  }
}
