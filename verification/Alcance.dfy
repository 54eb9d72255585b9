/** The whole-run bounds of `Ejecuciones` are attained: a run with one completed radicación between two completed
    traslados of the same account. */
module Alcance {
  import opened Opciones
  import opened Procesos
  import opened Movilidad
  import opened Ejecuciones

  function AvanceT(id: nat, nuevo: EstadoTraslado, t: nat): Evento {
    Evento(CambiarEstadoTraslado(id, nuevo, "", "", Nada, Nada), t, 0)
  }

  function AvanceR(id: nat, nuevo: EstadoRadicacion, t: nat): Evento {
    Evento(CambiarEstadoRadicacion(id, nuevo, "", "", "", Nada, Nada), t, 0)
  }

  function FilaT(c: nat, o: nat, estado: EstadoTraslado, creado: nat, t: nat): FilaTraslado {
    FilaTraslado(c, Algo(o), Nada, estado, "", "", Nada, Nada, Nada, creado, t)
  }

  function FilaR(c: nat, o: nat, estado: EstadoRadicacion, radicadoEn: Opcion<nat>, creado: nat,
                 t: nat): FilaRadicacion {
    FilaRadicacion(c, Algo(o), Nada, estado, "", "", "", radicadoEn, Nada, Nada, creado, t)
  }

  /** The application reaches `m` by these requests, all of them before instant `t`. */
  ghost predicate Llega(es: seq<Evento>, m: Mundo, t: nat) {
    Correr(m.cuentas, es, SoloAplicacion) == m && RelojEstricto(es) && forall k :: 0 <= k < |es| ==> es[k].ahora < t
  }

  lemma Otro(es: seq<Evento>, m: Mundo, e: Evento, t: nat) returns (es': seq<Evento>, m': Mundo)
    requires Llega(es, m, t) && t <= e.ahora && Tras(m, e, SoloAplicacion).cuentas == m.cuentas
    ensures m' == Tras(m, e, SoloAplicacion) && Llega(es', m', e.ahora + 1)
  {
    es', m' := es + [e], Tras(m, e, SoloAplicacion);
    assert (es + [e])[..|es|] == es;
  }

  /** A traslado can be created and approved wherever the guards admit it. */
  lemma Aprobar(es: seq<Evento>, m: Mundo, id: nat, c: nat, o: nat, t: nat) returns (es': seq<Evento>, m': Mundo)
    requires Llega(es, m, t) && c in m.cuentas && id !in m.traslados && !TrasladoActivo(m, c)
    requires !FaltaElOtro(Reciente(FechasTrasladado(m, c)), Reciente(FechasRadicado(m, c)))
    ensures Llega(es', m', t + 2) && m' == m.(traslados := m.traslados[id := FilaT(c, o, Aprobado, t, t + 1)])
  {
    var es1, m1 := Otro(es, m, Evento(CrearTraslado(id, c, o, Nada), t, 0), t);
    es', m' := Otro(es1, m1, AvanceT(id, Aprobado, t + 1), t + 1);
    assert m'.traslados == m.traslados[id := FilaT(c, o, Aprobado, t, t + 1)];
  }

  /** An approved one is completed in two requests. */
  lemma Trasladar(es: seq<Evento>, m: Mundo, id: nat, c: nat, o: nat, creado: nat, t: nat)
    returns (es': seq<Evento>, m': Mundo)
    requires Llega(es, m, t) && id in m.traslados && m.traslados[id] == FilaT(c, o, Aprobado, creado, creado + 1)
    ensures Llega(es', m', t + 2) && m' == m.(traslados := m.traslados[id := FilaT(c, o, Trasladado, creado, t + 1)])
  {
    var es1, m1 := Otro(es, m, AvanceT(id, EnviadoOrganismo, t), t);
    es', m' := Otro(es1, m1, AvanceT(id, Trasladado, t + 1), t + 1);
    assert m'.traslados == m.traslados[id := FilaT(c, o, Trasladado, creado, t + 1)];
  }

  /** And a new radicación too. */
  lemma Radicar(es: seq<Evento>, m: Mundo, id: nat, c: nat, o: nat, creado: nat, t: nat)
    returns (es': seq<Evento>, m': Mundo)
    requires Llega(es, m, t) && id in m.radicaciones
    requires m.radicaciones[id] == FilaR(c, o, EstadoRadicacion.SinAsignar, Nada, creado, creado)
    ensures Llega(es', m', t + 2)
    ensures m' == m.(radicaciones := m.radicaciones[id := FilaR(c, o, Radicado, Algo(t + 1), creado, t + 1)])
  {
    var es1, m1 := Otro(es, m, AvanceR(id, PendienteRadicar, t), t);
    es', m' := Otro(es1, m1, AvanceR(id, Radicado, t + 1), t + 1);
    assert m'.radicaciones == m.radicaciones[id := FilaR(c, o, Radicado, Algo(t + 1), creado, t + 1)];
  }

  function UnCiclo(c: nat, o: nat, i: nat, r: nat): Mundo {
    Mundo({c}, map[i := FilaT(c, o, Trasladado, 0, 4)], map[r := FilaR(c, o, Radicado, Algo(6), 2, 6)], map[])
  }

  lemma PrimerCiclo(c: nat, o: nat, i: nat, r: nat) returns (es: seq<Evento>)
    ensures Llega(es, UnCiclo(c, o, i, r), 7)
  {
    var m: Mundo := Mundo({c}, map[], map[], map[]);
    es, m := Aprobar([], m, i, c, o, 0);
    assert m.traslados[i].estado == Aprobado;
    assert FechasRadicado(m, c) == {};
    es, m := Otro(es, m, Evento(CrearRadicacion(r, c, o, Nada), 2, 0), 2);
    es, m := Trasladar(es, m, i, c, o, 0, 3);
    es, m := Radicar(es, m, r, c, o, 2, 5);
    assert m == UnCiclo(c, o, i, r);
  }

  /** For every account and any identifiers. */
  lemma CotasAlcanzadas(c: nat, o: nat, i: nat, r: nat, j: nat) returns (es: seq<Evento>)
    requires i != j
    ensures RelojEstricto(es)
    ensures var m := Correr({c}, es, SoloAplicacion); HechoT(m, i, c) && HechoT(m, j, c) && RadicadoEntre(m, i, j, c)
  {
    es := PrimerCiclo(c, o, i, r);
    var m := UnCiclo(c, o, i, r);
    assert FechasTrasladado(m, c) == {4} by { assert m.traslados[i].actualizadoEn == 4; }
    assert FechasRadicado(m, c) == {6} by { assert m.radicaciones[r].actualizadoEn == 6; }
    es, m := Aprobar(es, m, j, c, o, 7);
    es, m := Trasladar(es, m, j, c, o, 7, 9);
    assert HechaR(m, r, c) && FechaT(m, i) < FechaR(m, r) < FechaT(m, j);
  }
}
