/** Small facts about finite sets. */
module Conjuntos {
  lemma Alguno<T>(s: set<T>) returns (x: T)
    requires s != {}
    ensures x in s
  {
    x :| x in s;
  }

  lemma SubconjuntoMenor<T>(a: set<T>, b: set<T>)
    requires a <= b
    ensures |a| <= |b|
  {
    assert b == a + (b - a);
  }

  lemma {:induction false} RangoAcotado(s: set<int>, desde: int, hasta: int)
    requires forall k :: k in s ==> desde <= k < hasta
    requires desde <= hasta
    ensures |s| <= hasta - desde
    decreases hasta - desde
  {
    if desde == hasta {
      assert s == {};
    } else {
      var resto := s - {hasta - 1};
      RangoAcotado(resto, desde, hasta - 1);
      if hasta - 1 in s { assert s == resto + {hasta - 1}; } else { assert s == resto; }
    }
  }

  /** The integers from `desde` up to, not including, `hasta`. */
  function Rango(desde: int, hasta: int): (s: set<int>)
    requires desde <= hasta
    ensures forall k :: k in s <==> desde <= k < hasta
    ensures |s| == hasta - desde
    decreases hasta - desde
  {
    if desde == hasta then {} else Rango(desde, hasta - 1) + {hasta - 1}
  }

  lemma {:induction false} Extremos(s: set<int>) returns (a: int, b: int)
    requires s != {}
    ensures a in s && b in s && forall k :: k in s ==> a <= k <= b
    decreases s
  {
    var x := Alguno(s);
    a, b := x, x;
    var resto := s - {x};
    if resto != {} {
      var c, d := Extremos(resto);
      a, b := if c < x then c else x, if d > x then d else x;
    }
    assert forall k :: k in s ==> k == x || k in resto;
  }
}
