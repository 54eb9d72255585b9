/** Business-day arithmetic of migration 002: `es_dia_habil`, `sumar_dias_habiles`, `contar_dias_habiles`.

    A date is a day number and day 0 is a Sunday, so `EXTRACT(DOW FROM d)` is `d % 7`
    (Dafny's remainder is never negative). The holiday table is a finite set of dates. */
module DiasHabiles {
  import opened Conjuntos

  predicate EsDiaHabil(festivos: set<int>, fecha: int) {
    fecha % 7 != 0 && fecha % 7 != 6 && fecha !in festivos
  }

  /** The business days `f` with `desde <= f < hasta`. */
  ghost function Habiles(festivos: set<int>, desde: int, hasta: int): set<int> {
    set f | desde <= f < hasta && EsDiaHabil(festivos, f)
  }

  /** What `contar_dias_habiles` means: forwards it leaves out the first day and counts the last;
      backwards it counts, negatively, the last day too and leaves out the first. */
  ghost function Contar(festivos: set<int>, inicio: int, fin: int): int {
    if inicio <= fin then |Habiles(festivos, inicio + 1, fin + 1)|
    else -|Habiles(festivos, fin, inicio)|
  }

  /** Days until the coming Monday when the coming day is in a weekend, else 0. */
  function HastaLunes(fecha: int): nat {
    if (fecha + 1) % 7 == 6 then 2 else if (fecha + 1) % 7 == 0 then 1 else 0
  }

  ghost function FestivosDespues(festivos: set<int>, fecha: int): set<int> {
    set f | f in festivos && f > fecha
  }

  /** The date `sumar_dias_habiles` returns. Each step that does not count a day passes a holiday or gets
      nearer to Monday. */
  ghost function Sumar(festivos: set<int>, fecha: int, dias: int): int
    decreases if dias > 0 then dias else 0, |FestivosDespues(festivos, fecha)|, HastaLunes(fecha)
  {
    if dias <= 0 then fecha
    else if EsDiaHabil(festivos, fecha + 1) then Sumar(festivos, fecha + 1, dias - 1)
    else (PasoTermina(festivos, fecha); Sumar(festivos, fecha + 1, dias))
  }

  lemma PasoTermina(festivos: set<int>, fecha: int)
    ensures |FestivosDespues(festivos, fecha + 1)| <= |FestivosDespues(festivos, fecha)|
    ensures fecha + 1 in festivos ==> |FestivosDespues(festivos, fecha + 1)| < |FestivosDespues(festivos, fecha)|
    ensures fecha + 1 !in festivos ==> FestivosDespues(festivos, fecha + 1) == FestivosDespues(festivos, fecha)
  {
    var antes, luego := FestivosDespues(festivos, fecha), FestivosDespues(festivos, fecha + 1);
    if fecha + 1 in festivos {
      assert antes == luego + {fecha + 1};
    } else {
      assert antes == luego;
    }
  }

  // ---------------------------------------------------------------- the two loops

  /** Migration 002, `sumar_dias_habiles`. */
  method SumarDiasHabiles(festivos: set<int>, inicio: int, dias: int) returns (fecha: int)
    ensures fecha == Sumar(festivos, inicio, dias)
  {
    fecha := inicio;
    var cuenta := 0;
    while cuenta < dias
      invariant 0 <= cuenta && (dias >= 0 ==> cuenta <= dias)
      invariant Sumar(festivos, inicio, dias) == Sumar(festivos, fecha, dias - cuenta)
      decreases dias - cuenta, |FestivosDespues(festivos, fecha)|, HastaLunes(fecha)
    {
      PasoTermina(festivos, fecha);
      fecha := fecha + 1;
      if EsDiaHabil(festivos, fecha) {
        cuenta := cuenta + 1;
      }
    }
  }

  /** Migration 002, `contar_dias_habiles`. */
  method ContarDiasHabiles(festivos: set<int>, inicio: int, fin: int) returns (cuenta: int)
    ensures cuenta == Contar(festivos, inicio, fin)
  {
    var fecha := inicio;
    cuenta := 0;
    var signo := if fin >= inicio then 1 else -1;
    while fecha != fin
      invariant if fin >= inicio then inicio <= fecha <= fin else fin <= fecha <= inicio
      invariant cuenta == Contar(festivos, inicio, fecha)
      decreases if fin >= inicio then fin - fecha else fecha - fin
    {
      if fin >= inicio {
        UnDiaMas(festivos, inicio + 1, fecha + 1);
      } else {
        UnDiaAntes(festivos, fecha - 1, inicio);
      }
      fecha := fecha + signo;
      if EsDiaHabil(festivos, fecha) {
        cuenta := cuenta + signo;
      }
    }
  }

  // ---------------------------------------------------------------- counting

  lemma UnDiaMas(festivos: set<int>, desde: int, dia: int)
    requires desde <= dia
    ensures |Habiles(festivos, desde, dia + 1)|
         == |Habiles(festivos, desde, dia)| + (if EsDiaHabil(festivos, dia) then 1 else 0)
  {
    var h := Habiles(festivos, desde, dia);
    if EsDiaHabil(festivos, dia) {
      assert Habiles(festivos, desde, dia + 1) == h + {dia};
    } else {
      assert Habiles(festivos, desde, dia + 1) == h;
    }
  }

  lemma UnDiaAntes(festivos: set<int>, dia: int, hasta: int)
    requires dia < hasta
    ensures |Habiles(festivos, dia, hasta)|
         == |Habiles(festivos, dia + 1, hasta)| + (if EsDiaHabil(festivos, dia) then 1 else 0)
  {
    var h := Habiles(festivos, dia + 1, hasta);
    if EsDiaHabil(festivos, dia) {
      assert Habiles(festivos, dia, hasta) == h + {dia};
    } else {
      assert Habiles(festivos, dia, hasta) == h;
    }
  }

  lemma Partir(festivos: set<int>, a: int, b: int, c: int)
    requires a <= b <= c
    ensures |Habiles(festivos, a, c)| == |Habiles(festivos, a, b)| + |Habiles(festivos, b, c)|
  {
    assert Habiles(festivos, a, c) == Habiles(festivos, a, b) + Habiles(festivos, b, c);
    assert Habiles(festivos, a, b) !! Habiles(festivos, b, c);
  }

  /** Counting is additive along monotone dates. */
  lemma ContarAditivo(festivos: set<int>, a: int, b: int, c: int)
    requires a <= b <= c
    ensures Contar(festivos, a, c) == Contar(festivos, a, b) + Contar(festivos, b, c)
  {
    Partir(festivos, a + 1, b + 1, c + 1);
  }

  /** The signed definition is not antisymmetric: going and coming back leaves exactly the difference
      between the two end days. */
  lemma ContarAsimetrico(festivos: set<int>, a: int, b: int)
    requires a <= b
    ensures Contar(festivos, a, b) + Contar(festivos, b, a)
         == (if EsDiaHabil(festivos, b) then 1 else 0) - (if EsDiaHabil(festivos, a) then 1 else 0)
  {
    UnDiaAntes(festivos, a, b + 1);
    UnDiaMas(festivos, a, b);
    if a == b { assert Habiles(festivos, b, a) == {}; assert Habiles(festivos, a + 1, b + 1) == {}; }
  }

  // ---------------------------------------------------------------- sumar against contar

  /** `contar` undoes `sumar`, and a positive sum ends on a business day. */
  lemma {:induction false} ContarDeSumar(festivos: set<int>, d: int, n: nat)
    ensures d <= Sumar(festivos, d, n)
    ensures Contar(festivos, d, Sumar(festivos, d, n)) == n
    ensures n > 0 ==> d < Sumar(festivos, d, n) && EsDiaHabil(festivos, Sumar(festivos, d, n))
    decreases n, |FestivosDespues(festivos, d)|, HastaLunes(d)
  {
    if n == 0 {
      assert Habiles(festivos, d + 1, d + 1) == {};
    } else {
      PasoTermina(festivos, d);
      var m := if EsDiaHabil(festivos, d + 1) then n - 1 else n;
      ContarDeSumar(festivos, d + 1, m);
      var e := Sumar(festivos, d + 1, m);
      UnDiaAntes(festivos, d + 1, e + 1);
    }
  }

  /** `sumar` and `contar` form a Galois connection: the result is the least date by which `n` business
      days have passed. */
  lemma Galois(festivos: set<int>, d: int, e: int, n: nat)
    requires d <= e
    ensures Sumar(festivos, d, n) <= e <==> n <= Contar(festivos, d, e)
  {
    ContarDeSumar(festivos, d, n);
    var s := Sumar(festivos, d, n);
    if s <= e {
      ContarAditivo(festivos, d, s, e);
    } else {
      ContarAditivo(festivos, d, e, s - 1);
      UnDiaMas(festivos, d + 1, s);
    }
  }

  /** Adding in two instalments is adding once. */
  lemma {:induction false} SumarEnDosPartes(festivos: set<int>, d: int, m: nat, n: nat)
    ensures Sumar(festivos, Sumar(festivos, d, m), n) == Sumar(festivos, d, m + n)
    decreases m, |FestivosDespues(festivos, d)|, HastaLunes(d)
  {
    if m > 0 {
      PasoTermina(festivos, d);
      if EsDiaHabil(festivos, d + 1) {
        SumarEnDosPartes(festivos, d + 1, m - 1, n);
      } else {
        SumarEnDosPartes(festivos, d + 1, m, n);
      }
    }
  }

  // ---------------------------------------------------------------- the bound

  /** Weekdays before day `x`, counted from day 0. */
  function Laborables(x: int): int {
    5 * (x / 7) + (if x % 7 == 0 then 0 else x % 7 - 1)
  }

  lemma UnLaborable(x: int)
    ensures Laborables(x + 1) == Laborables(x) + (if x % 7 != 0 && x % 7 != 6 then 1 else 0)
  {
    if x % 7 == 6 {
      assert (x + 1) / 7 == x / 7 + 1;
    } else {
      assert (x + 1) / 7 == x / 7;
    }
  }

  /** The holidays of a stretch that fall on a weekday. */
  ghost function FestivosEntre(festivos: set<int>, desde: int, hasta: int): set<int> {
    set f | f in festivos && desde <= f < hasta && f % 7 != 0 && f % 7 != 6
  }

  /** Every seven consecutive days hold exactly five weekdays, and the business days of a stretch are its weekdays
      less the holidays that fall on one. */
  lemma {:induction false} CincoDeSiete(festivos: set<int>, desde: int, hasta: int)
    requires desde <= hasta
    ensures |Habiles(festivos, desde, hasta)|
         == Laborables(hasta) - Laborables(desde) - |FestivosEntre(festivos, desde, hasta)|
    decreases hasta - desde
  {
    if desde < hasta {
      CincoDeSiete(festivos, desde, hasta - 1);
      UnDiaMas(festivos, desde, hasta - 1);
      UnLaborable(hasta - 1);
      var antes := FestivosEntre(festivos, desde, hasta - 1);
      if hasta - 1 in festivos && (hasta - 1) % 7 != 0 && (hasta - 1) % 7 != 6 {
        assert FestivosEntre(festivos, desde, hasta) == antes + {hasta - 1};
      } else {
        assert FestivosEntre(festivos, desde, hasta) == antes;
      }
    }
  }

  /** What is counted, day by day: neither Sundays nor Saturdays nor holidays; forwards from the day after the first to
      the last, backwards from the last to the day before the first. */
  lemma ContarDiaADia(festivos: set<int>, a: int, b: int)
    ensures a <= b ==> Contar(festivos, a, b) == |set f | a < f <= b && f % 7 != 0 && f % 7 != 6 && f !in festivos|
    ensures b < a ==> Contar(festivos, a, b) == -|set f | b <= f < a && f % 7 != 0 && f % 7 != 6 && f !in festivos|
  {
    if a <= b {
      assert Habiles(festivos, a + 1, b + 1) == set f | a < f <= b && f % 7 != 0 && f % 7 != 6 && f !in festivos;
    } else {
      assert Habiles(festivos, b, a) == set f | b <= f < a && f % 7 != 0 && f % 7 != 6 && f !in festivos;
    }
  }

  /** And the sum, without naming the count: no days lead nowhere, and `dias` of them lead to a day that is neither
      Sunday nor Saturday nor holiday and is the last of exactly that many. */
  lemma SumarDiaADia(festivos: set<int>, d: int, dias: int)
    ensures dias <= 0 ==> Sumar(festivos, d, dias) == d
    ensures dias > 0 ==>
      var e := Sumar(festivos, d, dias);
      && d < e && e % 7 != 0 && e % 7 != 6 && e !in festivos
      && |set f | d < f <= e && f % 7 != 0 && f % 7 != 6 && f !in festivos| == dias
  {
    if dias > 0 {
      ContarDeSumar(festivos, d, dias);
      ContarDiaADia(festivos, d, Sumar(festivos, d, dias));
    }
  }

  /** `sumar_dias_habiles` ends within seven days for every five of `n` plus the number of holidays. */
  lemma CotaDeSumar(festivos: set<int>, d: int, n: nat)
    ensures Sumar(festivos, d, n) <= d + 7 * ((n + |festivos| + 4) / 5)
  {
    var k := (n + |festivos| + 4) / 5;
    var e := d + 7 * k;
    CincoDeSiete(festivos, d + 1, e + 1);
    SubconjuntoMenor(FestivosEntre(festivos, d + 1, e + 1), festivos);
    assert Laborables(e + 1) - Laborables(d + 1) == 5 * k by {
      assert (e + 1) == (d + 1) + 7 * k;
      assert (e + 1) / 7 == (d + 1) / 7 + k;
      assert (e + 1) % 7 == (d + 1) % 7;
    }
    Galois(festivos, d, e, n);
  }
}
