/** What a counter with a fixed deadline bounds over every interval of time.

    A log holds one mark for each event that a counter let through: when it happened, when the counter that
    counted it was created, and the count it reached. The rate limiter and the login lockout both produce
    such logs; the bound over an arbitrary interval is proved once, here. */
module Ventanas {
  import opened Conjuntos

  datatype Marca = Marca(t: nat, inicio: nat, n: nat)

  /** A counter lives `ttl` ticks, counts to at most `tope`, and is created by the event it counts first. */
  predicate MarcaBien(m: Marca, ttl: nat, tope: nat) {
    1 <= m.n <= tope && m.inicio <= m.t < m.inicio + ttl && (m.n == 1 ==> m.t == m.inicio)
  }

  /** The next mark is the next count of the same counter, or the first of a counter created once this one
      was dead. */
  predicate Sigue(a: Marca, b: Marca, ttl: nat) {
    && a.t <= b.t
    && ((b.inicio == a.inicio && b.n == a.n + 1) || (b.n == 1 && a.inicio + ttl <= b.inicio))
  }

  predicate Bitacora(l: seq<Marca>, ttl: nat, tope: nat) {
    && (forall i :: 0 <= i < |l| ==> MarcaBien(l[i], ttl, tope))
    && (forall i :: 0 < i < |l| ==> Sigue(l[i - 1], l[i], ttl))
  }

  /** A counter that reached the top is followed by `ttl` ticks without any event. */
  predicate ConPausa(l: seq<Marca>, ttl: nat, tope: nat) {
    forall i :: 0 < i < |l| && l[i - 1].n == tope ==> l[i - 1].t + ttl <= l[i].t
  }

  /** The positions of the events in the half-open interval [desde, desde + ancho). */
  ghost function EnIntervalo(l: seq<Marca>, desde: nat, ancho: nat): set<int> {
    set k | 0 <= k < |l| && desde <= l[k].t < desde + ancho
  }

  lemma EnIntervaloCrece(l: seq<Marca>, m: Marca, desde: nat, ancho: nat)
    ensures |EnIntervalo(l + [m], desde, ancho)|
         == |EnIntervalo(l, desde, ancho)| + (if desde <= m.t < desde + ancho then 1 else 0)
  {
    var e := EnIntervalo(l, desde, ancho);
    if desde <= m.t < desde + ancho {
      assert EnIntervalo(l + [m], desde, ancho) == e + {|l|};
    } else {
      assert EnIntervalo(l + [m], desde, ancho) == e;
    }
  }

  lemma {:induction false} EnOrden(l: seq<Marca>, ttl: nat, tope: nat, i: nat, j: nat)
    requires Bitacora(l, ttl, tope) && i <= j < |l|
    ensures l[i].t <= l[j].t && l[i].inicio <= l[j].inicio
    ensures l[i].inicio == l[j].inicio ==> l[j].n - l[i].n == j - i
    decreases j - i
  {
    if i < j {
      EnOrden(l, ttl, tope, i, j - 1);
      assert Sigue(l[j - 1], l[j], ttl);
      assert MarcaBien(l[i], ttl, tope) && MarcaBien(l[j - 1], ttl, tope) && MarcaBien(l[j], ttl, tope);
    }
  }

  /** A counter other than the one of position `i` was created after it, at its own first mark. */
  lemma {:induction false} Primera(l: seq<Marca>, ttl: nat, tope: nat, i: nat, j: nat) returns (m: nat)
    requires Bitacora(l, ttl, tope) && i < j < |l| && l[i].inicio != l[j].inicio
    ensures i < m <= j && l[m].n == 1 && l[m].inicio == l[m].t == l[j].inicio && j - m == l[j].n - 1
    decreases j - i
  {
    assert Sigue(l[j - 1], l[j], ttl) && MarcaBien(l[j], ttl, tope);
    if l[j].n == 1 {
      m := j;
    } else {
      m := Primera(l, ttl, tope, i, j - 1);
    }
  }

  /** Two events less than `ttl` apart have at most 2*tope - 3 events between them; with the pause,
      one less again. */
  lemma Cercanas(l: seq<Marca>, ttl: nat, tope: nat, i: nat, j: nat)
    requires Bitacora(l, ttl, tope) && i <= j < |l| && l[j].t < l[i].t + ttl
    ensures j - i + 1 <= 2 * tope - 1
    ensures ttl == 1 ==> j - i + 1 <= tope
    ensures ConPausa(l, ttl, tope) ==> j - i + 1 <= tope || j - i + 1 <= 2 * tope - 2
  {
    EnOrden(l, ttl, tope, i, j);
    assert MarcaBien(l[i], ttl, tope) && MarcaBien(l[j], ttl, tope);
    if l[i].inicio != l[j].inicio {
      var m := Primera(l, ttl, tope, i, j);
      var k := m - 1;
      assert Sigue(l[k], l[m], ttl) && MarcaBien(l[k], ttl, tope);
      EnOrden(l, ttl, tope, m, j);
      EnOrden(l, ttl, tope, i, k);
      if l[k].inicio != l[i].inicio {
        var m' := Primera(l, ttl, tope, i, k);
        EnOrden(l, ttl, tope, i, m');
        assert false;
      }
      assert k - i <= tope - 2;
    }
  }

  /** Any half-open interval as long as a counter's life holds at most 2*tope - 1 events; with the pause,
      at most the larger of tope and 2*tope - 2; and if that life is a single tick, at most tope. */
  lemma CotaDelIntervalo(l: seq<Marca>, ttl: nat, tope: nat, desde: nat)
    requires Bitacora(l, ttl, tope) && tope >= 1
    ensures |EnIntervalo(l, desde, ttl)| <= 2 * tope - 1
    ensures ttl == 1 ==> |EnIntervalo(l, desde, ttl)| <= tope
    ensures ConPausa(l, ttl, tope) ==>
      |EnIntervalo(l, desde, ttl)| <= tope || |EnIntervalo(l, desde, ttl)| <= 2 * tope - 2
  {
    var s := EnIntervalo(l, desde, ttl);
    if s != {} {
      var i, j := Extremos(s);
      Cercanas(l, ttl, tope, i, j);
      RangoAcotado(s, i, j + 1);
    }
  }
}
