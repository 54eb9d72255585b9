/** The fixed-window rate limiter of `rate_limiter.py`. */
module Limitador {
  import opened Conjuntos
  import opened Redis
  import opened Ventanas

  /** A request of one client and path (the key) at one instant. */
  datatype Llegada = Llegada(clave: string, t: nat)

  predicate EnOrdenDeLlegada(ll: seq<Llegada>) {
    forall i, j :: 0 <= i < j < |ll| ==> ll[i].t <= ll[j].t
  }

  /** The shared counters once all of `ll` has been served. */
  function Contadores(ll: seq<Llegada>, segundos: nat): Almacen<int> {
    if ll == [] then map[]
    else var u := ll[|ll| - 1]; TrasIncr(Contadores(ll[..|ll| - 1], segundos), u.clave, segundos, u.t)
  }

  /** Request `i` of the sequence is let through. */
  predicate Admitida(ll: seq<Llegada>, i: int, veces: int, segundos: nat)
    requires 0 <= i < |ll|
  {
    var c := Contadores(ll[..i + 1], segundos);
    ll[i].clave in c && c[ll[i].clave].valor <= veces
  }

  /** The admitted requests of `clave` with `desde <= t < desde + segundos`. */
  ghost function AdmitidasEn(ll: seq<Llegada>, clave: string, veces: int, segundos: nat, desde: nat): set<int> {
    set i | 0 <= i < |ll| && ll[i].clave == clave && desde <= ll[i].t < desde + segundos
            && Admitida(ll, i, veces, segundos)
  }

  class AsyncRateLimiter {
    const veces: int
    const segundos: nat
    const cache: RedisService<int>

    constructor (veces: int, segundos: nat, cache: RedisService<int>)
      ensures this.veces == veces && this.segundos == segundos && this.cache == cache
    {
      this.veces := veces;
      this.segundos := segundos;
      this.cache := cache;
    }

    /** `__call__`: serving one more request appends it to the served sequence and answers its admission. */
    method Llamar(clave: string, ghost servidas: seq<Llegada>) returns (admitida: bool)
      requires segundos > 0 && cache.datos == Contadores(servidas, segundos)
      modifies cache
      ensures cache.ahora == old(cache.ahora)
      ensures cache.datos == Contadores(servidas + [Llegada(clave, cache.ahora)], segundos)
      ensures admitida <==> Admitida(servidas + [Llegada(clave, cache.ahora)], |servidas|, veces, segundos)
    {
      ghost var todas := servidas + [Llegada(clave, cache.ahora)];
      assert todas[..|servidas|] == servidas && todas[..|servidas| + 1] == todas;
      var actual := EjecutarIncr(cache, clave, segundos);
      admitida := actual <= veces;
    }
  }

  // ---------------------------------------------------------------- the admitted requests as a window log

  ghost function Bitacorar(ll: seq<Llegada>, clave: string, veces: int, segundos: nat): seq<Marca> {
    if ll == [] then []
    else
      var previas := Bitacorar(ll[..|ll| - 1], clave, veces, segundos);
      var u := ll[|ll| - 1];
      var c := Contadores(ll, segundos);
      if u.clave == clave && clave in c && 1 <= c[clave].valor <= veces && c[clave].expira >= segundos
      then previas + [Marca(u.t, c[clave].expira - segundos, c[clave].valor)]
      else previas
  }

  /** The live counter and the last mark agree. */
  ghost predicate Enlace(l: seq<Marca>, c: Almacen<int>, clave: string, veces: int, segundos: nat, ahora: nat) {
    && (clave !in c ==> l == [])
    && (clave in c ==>
        && |l| > 0
        && !c[clave].fija && c[clave].valor >= 1 && segundos <= c[clave].expira <= ahora + segundos
        && l[|l| - 1].inicio == c[clave].expira - segundos
        && l[|l| - 1].n == if c[clave].valor <= veces then c[clave].valor else veces)
  }

  lemma {:induction false} BitacoraValida(ll: seq<Llegada>, clave: string, veces: int, segundos: nat, ahora: nat)
    requires EnOrdenDeLlegada(ll) && veces >= 1 && segundos > 0
    requires |ll| > 0 ==> ll[|ll| - 1].t <= ahora
    ensures Bitacora(Bitacorar(ll, clave, veces, segundos), segundos, veces)
    ensures Enlace(Bitacorar(ll, clave, veces, segundos), Contadores(ll, segundos), clave, veces, segundos, ahora)
    ensures forall k :: 0 <= k < |Bitacorar(ll, clave, veces, segundos)| ==>
      Bitacorar(ll, clave, veces, segundos)[k].t <= ahora
    ensures |Bitacorar(ll, clave, veces, segundos)| > 0 ==> Bitacorar(ll, clave, veces, segundos)[0].n == 1
  {
    if |ll| > 0 {
      var resto, u := ll[..|ll| - 1], ll[|ll| - 1];
      BitacoraValida(resto, clave, veces, segundos, u.t);
      var l, c := Bitacorar(resto, clave, veces, segundos), Contadores(resto, segundos);
      if u.clave == clave {
        var d := Contadores(ll, segundos);
        assert d == TrasIncr(c, clave, segundos, u.t);
        if |l| > 0 {
          assert MarcaBien(l[|l| - 1], segundos, veces);
        }
      }
    }
  }

  lemma {:induction false} ContadorPositivo(ll: seq<Llegada>, clave: string, segundos: nat)
    requires clave in Contadores(ll, segundos)
    ensures var c := Contadores(ll, segundos)[clave]; !c.fija && c.valor >= 1 && c.expira >= segundos
  {
    var resto, u := ll[..|ll| - 1], ll[|ll| - 1];
    if clave in Contadores(resto, segundos) {
      ContadorPositivo(resto, clave, segundos);
    }
  }

  lemma MismosAnteriores(ll: seq<Llegada>, clave: string, veces: int, segundos: nat, desde: nat)
    requires |ll| > 0
    ensures var n := |ll| - 1;
      AdmitidasEn(ll, clave, veces, segundos, desde) - {n} == AdmitidasEn(ll[..n], clave, veces, segundos, desde)
  {
    var n := |ll| - 1;
    forall i | 0 <= i < n
      ensures Admitida(ll[..n], i, veces, segundos) == Admitida(ll, i, veces, segundos)
    {
      assert ll[..n][..i + 1] == ll[..i + 1];
    }
  }

  lemma UnaAdmitidaMas(ll: seq<Llegada>, clave: string, veces: int, segundos: nat, desde: nat)
    requires ll != []
    ensures var n := |ll| - 1;
      |AdmitidasEn(ll, clave, veces, segundos, desde)| == |AdmitidasEn(ll[..n], clave, veces, segundos, desde)|
        + (if ll[n].clave == clave && desde <= ll[n].t < desde + segundos && Admitida(ll, n, veces, segundos)
           then 1 else 0)
  {
    var n, todas := |ll| - 1, AdmitidasEn(ll, clave, veces, segundos, desde);
    MismosAnteriores(ll, clave, veces, segundos, desde);
    if n !in todas { assert todas - {n} == todas; }
  }

  /** Counting over the arrivals is counting over their log. */
  lemma {:induction false} MismaCuenta(ll: seq<Llegada>, clave: string, veces: int, segundos: nat, desde: nat)
    ensures |AdmitidasEn(ll, clave, veces, segundos, desde)|
         == |EnIntervalo(Bitacorar(ll, clave, veces, segundos), desde, segundos)|
  {
    if ll == [] {
      assert AdmitidasEn(ll, clave, veces, segundos, desde) == {};
      assert EnIntervalo([], desde, segundos) == {};
    } else {
      var n := |ll| - 1;
      MismaCuenta(ll[..n], clave, veces, segundos, desde);
      UnaAdmitidaMas(ll, clave, veces, segundos, desde);
      var u, c := ll[n], Contadores(ll, segundos);
      assert ll[..n + 1] == ll;
      ContadorPositivo(ll, u.clave, segundos);
      var l := Bitacorar(ll[..n], clave, veces, segundos);
      if u.clave == clave && c[clave].valor <= veces {
        var m := Marca(u.t, c[clave].expira - segundos, c[clave].valor);
        EnIntervaloCrece(l, m, desde, segundos);
        assert Bitacorar(ll, clave, veces, segundos) == l + [m];
      } else {
        assert Bitacorar(ll, clave, veces, segundos) == l;
      }
    }
  }

  // ---------------------------------------------------------------- what one window admits

  /** The counter as request `i` left it; its deadline tells the window. */
  function TrasLlegada(ll: seq<Llegada>, i: int, segundos: nat): Entrada<int>
    requires 0 <= i < |ll|
  {
    var c := Contadores(ll[..i + 1], segundos);
    if ll[i].clave in c then c[ll[i].clave] else Entrada(0, 0)
  }

  predicate CuentaEnVentana(ll: seq<Llegada>, i: int, clave: string, veces: int, segundos: nat, fin: nat)
    requires 0 <= i < |ll|
  {
    ll[i].clave == clave && TrasLlegada(ll, i, segundos).expira == fin && Admitida(ll, i, veces, segundos)
  }

  /** The admitted requests of `clave` counted in the window that ends at `fin`. */
  ghost function AdmitidasDeVentana(ll: seq<Llegada>, clave: string, veces: int, segundos: nat, fin: nat): set<int> {
    set i | 0 <= i < |ll| && CuentaEnVentana(ll, i, clave, veces, segundos, fin)
  }

  lemma {:induction false} VentanasCrecen(ll: seq<Llegada>, clave: string, segundos: nat, i: int)
    requires EnOrdenDeLlegada(ll) && segundos > 0 && 0 <= i < |ll| && ll[i].clave == clave
    ensures var c := Contadores(ll, segundos);
      && clave in c && !c[clave].fija
      && TrasLlegada(ll, i, segundos).expira <= c[clave].expira <= ll[|ll| - 1].t + segundos
  {
    var n := |ll| - 1;
    assert ll[..n + 1] == ll;
    if i < n {
      assert ll[..n][..i + 1] == ll[..i + 1];
      VentanasCrecen(ll[..n], clave, segundos, i);
    } else if clave in Contadores(ll[..n], segundos) {
      ContadorPositivo(ll[..n], clave, segundos);
      PlazoAcotado(ll[..n], clave, segundos);
    }
  }

  lemma {:induction false} PlazoAcotado(ll: seq<Llegada>, clave: string, segundos: nat)
    requires EnOrdenDeLlegada(ll) && clave in Contadores(ll, segundos)
    ensures ll != [] && Contadores(ll, segundos)[clave].expira <= ll[|ll| - 1].t + segundos
  {
    var n := |ll| - 1;
    if clave in Contadores(ll[..n], segundos) { PlazoAcotado(ll[..n], clave, segundos); }
  }

  lemma MismaLlegada(ll: seq<Llegada>, n: nat, i: nat, veces: int, segundos: nat)
    requires i < n <= |ll|
    ensures Admitida(ll[..n], i, veces, segundos) == Admitida(ll, i, veces, segundos)
    ensures TrasLlegada(ll[..n], i, segundos) == TrasLlegada(ll, i, segundos)
  {
    assert ll[..n][..i + 1] == ll[..i + 1];
  }

  lemma MismasDeVentana(ll: seq<Llegada>, clave: string, veces: int, segundos: nat, fin: nat)
    requires ll != []
    ensures AdmitidasDeVentana(ll, clave, veces, segundos, fin) - {|ll| - 1}
         == AdmitidasDeVentana(ll[..|ll| - 1], clave, veces, segundos, fin)
  {
    var n := |ll| - 1;
    var todas := AdmitidasDeVentana(ll, clave, veces, segundos, fin);
    var antes := AdmitidasDeVentana(ll[..n], clave, veces, segundos, fin);
    forall i ensures i in todas - {n} <==> i in antes {
      if 0 <= i < n { MismaLlegada(ll, n, i, veces, segundos); }
    }
  }

  lemma UnaDeVentanaMas(ll: seq<Llegada>, clave: string, veces: int, segundos: nat, fin: nat)
    requires ll != []
    ensures |AdmitidasDeVentana(ll, clave, veces, segundos, fin)|
         == |AdmitidasDeVentana(ll[..|ll| - 1], clave, veces, segundos, fin)|
            + (if CuentaEnVentana(ll, |ll| - 1, clave, veces, segundos, fin) then 1 else 0)
  {
    var n, todas := |ll| - 1, AdmitidasDeVentana(ll, clave, veces, segundos, fin);
    MismasDeVentana(ll, clave, veces, segundos, fin);
    if n !in todas { assert todas - {n} == todas; }
  }

  /** Nothing has been counted yet in a window that ends later than the present one. */
  lemma VentanaFutura(ll: seq<Llegada>, clave: string, veces: int, segundos: nat, fin: nat)
    requires EnOrdenDeLlegada(ll) && segundos > 0
    requires clave in Contadores(ll, segundos) ==> Contadores(ll, segundos)[clave].expira < fin
    ensures AdmitidasDeVentana(ll, clave, veces, segundos, fin) == {}
  {
    forall i | i in AdmitidasDeVentana(ll, clave, veces, segundos, fin) ensures false {
      VentanasCrecen(ll, clave, segundos, i);
    }
  }

  /** Over every arrival sequence each window of a key admits at most `veces` requests; and the window that is
      running has admitted as many as its counter says, up to that number. */
  lemma {:induction false} CotaDeVentana(ll: seq<Llegada>, clave: string, veces: nat, segundos: nat, fin: nat)
    requires EnOrdenDeLlegada(ll) && segundos > 0
    ensures |AdmitidasDeVentana(ll, clave, veces, segundos, fin)| <= veces
    ensures var c := Contadores(ll, segundos);
      clave in c && c[clave].expira == fin ==>
        |AdmitidasDeVentana(ll, clave, veces, segundos, fin)|
          == if c[clave].valor <= veces then c[clave].valor else veces
  {
    if ll != [] {
      var n := |ll| - 1;
      var c, d := Contadores(ll[..n], segundos), Contadores(ll, segundos);
      assert ll[..n + 1] == ll;
      CotaDeVentana(ll[..n], clave, veces, segundos, fin);
      UnaDeVentanaMas(ll, clave, veces, segundos, fin);
      if clave in c {
        ContadorPositivo(ll[..n], clave, segundos);
        PlazoAcotado(ll[..n], clave, segundos);
      }
      if ll[n].clave == clave && d[clave].expira == fin && !Vive(c, clave, ll[n].t) {
        VentanaFutura(ll[..n], clave, veces, segundos, fin);
      }
    }
  }

  // ---------------------------------------------------------------- what the limiter bounds

  /** The most that any interval of one window's length can admit. A window of a single tick is itself such an
      interval; a longer one can be emptied at its end and the next at its beginning. */
  function Maximo(veces: int, segundos: nat): int {
    if veces <= 0 then 0 else if segundos == 1 then veces else 2 * veces - 1
  }

  /** Over every arrival sequence, any half-open interval of one window's length lets through at most that many
      requests of a key. */
  lemma CotaDelLimitador(ll: seq<Llegada>, clave: string, veces: int, segundos: nat, desde: nat)
    requires EnOrdenDeLlegada(ll) && segundos > 0
    ensures |AdmitidasEn(ll, clave, veces, segundos, desde)| <= Maximo(veces, segundos)
  {
    MismaCuenta(ll, clave, veces, segundos, desde);
    if veces >= 1 {
      BitacoraValida(ll, clave, veces, segundos, if ll == [] then 0 else ll[|ll| - 1].t);
      CotaDelIntervalo(Bitacorar(ll, clave, veces, segundos), segundos, veces, desde);
    } else {
      SinCupo(ll, clave, veces, segundos);
      assert EnIntervalo([], desde, segundos) == {};
    }
  }

  lemma {:induction false} SinCupo(ll: seq<Llegada>, clave: string, veces: int, segundos: nat)
    requires veces <= 0
    ensures Bitacorar(ll, clave, veces, segundos) == []
  {
    if ll != [] { SinCupo(ll[..|ll| - 1], clave, veces, segundos); }
  }

  /** One arrival opens a window, the rest of what it admits comes in its last tick, and as much again in the
      first tick after it. */
  function Rafaga(clave: string, veces: nat, segundos: nat): seq<Llegada>
    requires segundos > 0
  {
    seq(2 * veces, i => Llegada(clave, if i == 0 then 0 else if i < veces then segundos - 1 else segundos))
  }

  lemma {:induction false} ContadorDeRafaga(clave: string, veces: nat, segundos: nat, i: nat)
    requires segundos > 0 && 1 <= i <= 2 * veces
    ensures Contadores(Rafaga(clave, veces, segundos)[..i], segundos)
         == map[clave := if i <= veces then Entrada(i, segundos) else Entrada(i - veces, 2 * segundos)]
  {
    var ll := Rafaga(clave, veces, segundos);
    assert ll[..i][..i - 1] == ll[..i - 1];
    if i > 1 {
      ContadorDeRafaga(clave, veces, segundos, i - 1);
    }
  }

  predicate TodasAdmitidas(ll: seq<Llegada>, veces: int, segundos: nat) {
    forall i :: 0 <= i < |ll| ==> Admitida(ll, i, veces, segundos)
  }

  lemma RafagaAdmitida(clave: string, veces: nat, segundos: nat)
    requires segundos > 0
    ensures TodasAdmitidas(Rafaga(clave, veces, segundos), veces, segundos)
  {
    forall i | 0 <= i < 2 * veces ensures Admitida(Rafaga(clave, veces, segundos), i, veces, segundos) {
      ContadorDeRafaga(clave, veces, segundos, i + 1);
    }
  }

  /** Exactly the arrivals from `a` up to `b` fall in the interval, and all are of the key. */
  predicate EnTramo(ll: seq<Llegada>, clave: string, segundos: nat, desde: nat, a: nat, b: nat) {
    forall i :: 0 <= i < |ll| ==> ll[i].clave == clave && (a <= i < b <==> desde <= ll[i].t < desde + segundos)
  }

  lemma AdmitidasSon(ll: seq<Llegada>, clave: string, veces: int, segundos: nat, desde: nat, a: nat, b: nat)
    requires TodasAdmitidas(ll, veces, segundos) && a <= b <= |ll| && EnTramo(ll, clave, segundos, desde, a, b)
    ensures |AdmitidasEn(ll, clave, veces, segundos, desde)| == b - a
  {
    assert AdmitidasEn(ll, clave, veces, segundos, desde) == Rango(a, b);
  }

  lemma RafagaEnOrden(clave: string, veces: nat, segundos: nat)
    requires segundos > 0
    ensures EnOrdenDeLlegada(Rafaga(clave, veces, segundos))
  {
  }

  lemma RafagaEnTramo(clave: string, veces: nat, segundos: nat)
    requires segundos > 0 && veces >= 1
    ensures segundos == 1 ==> EnTramo(Rafaga(clave, veces, segundos), clave, segundos, segundos - 1, 0, veces)
    ensures segundos > 1 ==> EnTramo(Rafaga(clave, veces, segundos), clave, segundos, segundos - 1, 1, 2 * veces)
  {
  }

  /** The bound is attained, for every key and every configuration. */
  lemma CotaAlcanzada(clave: string, veces: int, segundos: nat) returns (ll: seq<Llegada>)
    requires segundos > 0
    ensures EnOrdenDeLlegada(ll)
    ensures |AdmitidasEn(ll, clave, veces, segundos, segundos - 1)| == Maximo(veces, segundos)
  {
    if veces <= 0 {
      ll := [];
      NadieAdmitido(clave, veces, segundos);
    } else {
      ll := Rafaga(clave, veces, segundos);
      RafagaLlena(clave, veces, segundos);
    }
  }

  lemma NadieAdmitido(clave: string, veces: int, segundos: nat)
    requires segundos > 0
    ensures AdmitidasEn([], clave, veces, segundos, segundos - 1) == {}
  {
  }

  lemma RafagaLlena(clave: string, veces: nat, segundos: nat)
    requires veces >= 1 && segundos > 0
    ensures EnOrdenDeLlegada(Rafaga(clave, veces, segundos))
    ensures |AdmitidasEn(Rafaga(clave, veces, segundos), clave, veces, segundos, segundos - 1)|
         == Maximo(veces, segundos)
  {
    RafagaAdmitida(clave, veces, segundos);
    RafagaEnOrden(clave, veces, segundos);
    RafagaEnTramo(clave, veces, segundos);
    AdmitidasSon(Rafaga(clave, veces, segundos), clave, veces, segundos, segundos - 1,
                 if segundos == 1 then 0 else 1, if segundos == 1 then veces else 2 * veces);
  }

  /** A refusal is never unearned: when a request is refused, `veces` requests of its key were let through
      during the `segundos` before it. */
  lemma RechazoMerecido(ll: seq<Llegada>, veces: nat, segundos: nat)
    requires EnOrdenDeLlegada(ll) && segundos > 0 && |ll| > 0
    requires !Admitida(ll, |ll| - 1, veces, segundos)
    ensures var u := ll[|ll| - 1];
      exists desde: nat :: desde <= u.t < desde + segundos
        && |AdmitidasEn(ll, u.clave, veces, segundos, desde)| >= veces
  {
    var u := ll[|ll| - 1];
    var l := Bitacorar(ll, u.clave, veces, segundos);
    assert ll[..|ll|] == ll;
    if veces == 0 {
      assert u.t <= u.t < u.t + segundos && |AdmitidasEn(ll, u.clave, veces, segundos, u.t)| >= 0;
    } else {
      BitacoraValida(ll, u.clave, veces, segundos, u.t);
      var fin := |l| - 1;
      var desde := l[fin].inicio;
      MismaCuenta(ll, u.clave, veces, segundos, desde);
      PrimerasDeLaVentana(l, segundos, veces, fin);
      var s := Rango(|l| - veces, |l|);
      assert s <= EnIntervalo(l, desde, segundos);
      SubconjuntoMenor(s, EnIntervalo(l, desde, segundos));
    }
  }

  /** A window that begins inside the log holds all its earlier counts. */
  lemma {:induction false} PrimerasDeLaVentana(l: seq<Marca>, ttl: nat, tope: nat, j: nat)
    requires Bitacora(l, ttl, tope) && j < |l| && (l[0].n == 1)
    ensures j - l[j].n + 1 >= 0
    ensures forall k :: j - l[j].n < k <= j ==> l[k].inicio == l[j].inicio && l[j].inicio <= l[k].t < l[j].inicio + ttl
  {
    assert MarcaBien(l[j], ttl, tope);
    if l[j].n > 1 {
      assert Sigue(l[j - 1], l[j], ttl);
      PrimerasDeLaVentana(l, ttl, tope, j - 1);
    }
  }
}
