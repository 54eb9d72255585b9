/** How the novedades of a process and its state go together: creating one tries to mark the process, resolving
    the last one tries to bring it back, and a refused transition is swallowed. */
module Novedades {
  import opened Opciones
  import opened Procesos
  import opened Movilidad

  predicate EsDeNovedad(e: Evento) {
    e.cmd.CrearNovedad? || e.cmd.ResolverNovedad?
  }

  /** The tables after the events, refused ones included, from any tables. */
  ghost function Desde(m: Mundo, es: seq<Evento>, capa: Capa): Mundo {
    if es == [] then m else Tras(Desde(m, es[..|es| - 1], capa), es[|es| - 1], capa)
  }

  /** A UUID names one process, of one kind, and a novedad names a process that is there. */
  ghost predicate Integro(m: Mundo) {
    && (forall id :: id in m.traslados ==> id !in m.radicaciones)
    && (forall n :: n in m.novedades ==> Existe(m, m.novedades[n].tipo, m.novedades[n].proceso))
  }

  /** An unresolved novedad of this very process. */
  predicate PendienteDe(m: Mundo, n: nat, tipo: TipoProceso, p: nat) {
    n in m.novedades && m.novedades[n].tipo == tipo && m.novedades[n].proceso == p && m.novedades[n].estado != Resuelta
  }

  predicate AlgunaPendiente(m: Mundo, tipo: TipoProceso, p: nat) {
    exists n :: n in m.novedades && PendienteDe(m, n, tipo, p)
  }

  predicate EstaRevisado(m: Mundo, tipo: TipoProceso, id: nat) {
    match tipo
    case EsTraslado => id in m.traslados && m.traslados[id].estado == EstadoTraslado.Revisado
    case EsRadicacion => id in m.radicaciones && m.radicaciones[id].estado == EstadoRadicacion.Revisado
  }

  ghost predicate Acoplado(m: Mundo, tipo: TipoProceso, p: nat) {
    if AlgunaPendiente(m, tipo, p) then EnNovedades(m, tipo, p) else EstaRevisado(m, tipo, p)
  }

  predicate MismoEstado(m: Mundo, m': Mundo, tipo: TipoProceso, p: nat) {
    match tipo
    case EsTraslado => p in m.traslados && p in m'.traslados && m'.traslados[p] == m.traslados[p]
    case EsRadicacion => p in m.radicaciones && p in m'.radicaciones && m'.radicaciones[p] == m.radicaciones[p]
  }

  /** The repository looks for pending novedades by process identifier alone; that finds those of the process. */
  lemma PendientesPorId(m: Mundo, tipo: TipoProceso, p: nat)
    requires Integro(m) && Existe(m, tipo, p)
    ensures HayPendientes(m, p) <==> AlgunaPendiente(m, tipo, p)
  {
    if n :| n in m.novedades && m.novedades[n].proceso == p && m.novedades[n].estado != Resuelta {
      assert PendienteDe(m, n, tipo, p);
    }
  }

  /** Only the row of this process may differ. */
  predicate SoloToca(m: Mundo, m': Mundo, tipo: TipoProceso, p: nat) {
    match tipo
    case EsTraslado =>
      && p in m.traslados && p in m'.traslados && m'.traslados == m.traslados[p := m'.traslados[p]]
      && m'.radicaciones == m.radicaciones
    case EsRadicacion =>
      && p in m.radicaciones && p in m'.radicaciones && m'.radicaciones == m.radicaciones[p := m'.radicaciones[p]]
      && m'.traslados == m.traslados
  }

  /** The attempt to mark a process is made or swallowed, never an error, and touches no other process. */
  lemma IntentoDeMarcar(m: Mundo, tipo: TipoProceso, p: nat, ahora: nat, hoy: int, capa: Capa)
    requires Existe(m, tipo, p)
    ensures var r := Intentar(m, tipo, p, true, ahora, hoy, capa);
      && r.Bien? && r.valor.novedades == m.novedades && SoloToca(m, r.valor, tipo, p)
      && (EnNovedades(r.valor, tipo, p) <==> AdmiteNovedades(m, tipo, p))
      && (!AdmiteNovedades(m, tipo, p) ==> MismoEstado(m, r.valor, tipo, p))
  {
    match tipo {
      case EsTraslado => assert m.traslados[p := m.traslados[p]] == m.traslados;
      case EsRadicacion => assert m.radicaciones[p := m.radicaciones[p]] == m.radicaciones;
    }
  }

  /** The attempt to bring a marked process back always succeeds. */
  lemma IntentoDeRevertir(m: Mundo, tipo: TipoProceso, p: nat, ahora: nat, hoy: int, capa: Capa)
    requires EnNovedades(m, tipo, p)
    ensures var r := Intentar(m, tipo, p, false, ahora, hoy, capa);
      r.Bien? && r.valor.novedades == m.novedades && SoloToca(m, r.valor, tipo, p) && EstaRevisado(r.valor, tipo, p)
  {
  }

  /** The states from which a process can be marked, or is marked already. */
  predicate AdmiteNovedades(m: Mundo, tipo: TipoProceso, p: nat) {
    match tipo
    case EsTraslado =>
      p in m.traslados && m.traslados[p].estado in [EstadoTraslado.SinAsignar, EstadoTraslado.Revisado,
                                                    EstadoTraslado.ConNovedades]
    case EsRadicacion =>
      p in m.radicaciones && m.radicaciones[p].estado in [Recibido, EstadoRadicacion.Revisado,
                                                          EstadoRadicacion.ConNovedades]
  }

  /** A novedad is created for every process that is there and not terminal, with a new identifier; and the process
      is marked exactly when its state admits it. Otherwise the novedad is there and the process does not show it. */
  lemma CrearMarcaSii(m: Mundo, e: Evento, capa: Capa)
    requires e.cmd.CrearNovedad?
    ensures var tipo, p, r := e.cmd.tipo, e.cmd.proceso, Paso(m, e, capa);
      && (r.Bien? <==> Existe(m, tipo, p) && !Terminado(m, tipo, p) && e.cmd.id !in m.novedades)
      && (r.Bien? ==> r.valor.novedades == m.novedades[e.cmd.id := FilaNovedad(tipo, p, Pendiente, "")]
                      && SoloToca(m, r.valor, tipo, p))
      && (r.Bien? ==> (EnNovedades(r.valor, tipo, p) <==> AdmiteNovedades(m, tipo, p)))
      && (r.Bien? && !AdmiteNovedades(m, tipo, p) ==> MismoEstado(m, r.valor, tipo, p))
  {
    var id, tipo, p := e.cmd.id, e.cmd.tipo, e.cmd.proceso;
    var m1 := m.(novedades := m.novedades[id := FilaNovedad(tipo, p, Pendiente, "")]);
    if Existe(m, tipo, p) {
      IntentoDeMarcar(m1, tipo, p, e.ahora, e.hoy, capa);
    }
  }

  /** In any state an approved traslado takes a novedad, which stays pending, and stays approved. */
  lemma AprobadoNoSeMarca(m: Mundo, e: Evento, capa: Capa)
    requires e.cmd.CrearNovedad? && e.cmd.tipo == EsTraslado && e.cmd.id !in m.novedades
    requires e.cmd.proceso in m.traslados && m.traslados[e.cmd.proceso].estado == Aprobado
    ensures var p, r := e.cmd.proceso, Paso(m, e, capa);
      && r.Bien? && AlgunaPendiente(r.valor, EsTraslado, p)
      && p in r.valor.traslados && r.valor.traslados[p] == m.traslados[p]
  {
    CrearMarcaSii(m, e, capa);
    assert PendienteDe(Paso(m, e, capa).valor, e.cmd.id, EsTraslado, e.cmd.proceso);
  }

  /** Resolving succeeds for an unresolved novedad with a solution that is not blank, whatever becomes of the process,
      which goes back to `revisado` exactly when it was marked and nothing of it is pending any more. */
  lemma ResolverRevierteSii(m: Mundo, e: Evento, capa: Capa)
    requires e.cmd.ResolverNovedad? && Integro(m)
    ensures var id, r := e.cmd.id, Paso(m, e, capa);
      && (r.Bien? <==> id in m.novedades && m.novedades[id].estado != Resuelta && Recortar(e.cmd.solucion) != "")
      && (r.Bien? ==>
          var n := m.novedades[id];
          && r.valor.novedades == m.novedades[id := n.(estado := Resuelta, solucion := Recortar(e.cmd.solucion))]
          && Integro(r.valor)
          && (if EnNovedades(m, n.tipo, n.proceso) && !AlgunaPendiente(r.valor, n.tipo, n.proceso)
              then EstaRevisado(r.valor, n.tipo, n.proceso)
              else MismoEstado(m, r.valor, n.tipo, n.proceso))
          && SoloToca(m, r.valor, n.tipo, n.proceso))
  {
    var id := e.cmd.id;
    if id in m.novedades && Resolver(m.novedades[id], e.cmd.solucion).Bien? {
      var n := Resolver(m.novedades[id], e.cmd.solucion).valor;
      var m1 := m.(novedades := m.novedades[id := n]);
      assert Integro(m1);
      PendientesPorId(m1, n.tipo, n.proceso);
      if EnNovedades(m1, n.tipo, n.proceso) { IntentoDeRevertir(m1, n.tipo, n.proceso, e.ahora, e.hoy, capa); }
      Intacto(m, m1, n.tipo, n.proceso);
      MismasPendientes(m1, Paso(m, e, capa).valor, n.tipo, n.proceso);
    }
  }

  lemma Intacto(m: Mundo, m': Mundo, tipo: TipoProceso, p: nat)
    requires Existe(m, tipo, p) && m'.traslados == m.traslados && m'.radicaciones == m.radicaciones
    ensures SoloToca(m, m', tipo, p)
  {
  }

  lemma MismasPendientes(m: Mundo, m': Mundo, tipo: TipoProceso, p: nat)
    requires m'.novedades == m.novedades
    ensures AlgunaPendiente(m', tipo, p) <==> AlgunaPendiente(m, tipo, p)
  {
    if n :| n in m.novedades && PendienteDe(m, n, tipo, p) {
      assert PendienteDe(m', n, tipo, p);
    }
    if n :| n in m'.novedades && PendienteDe(m', n, tipo, p) {
      assert PendienteDe(m, n, tipo, p);
    }
  }

  lemma OtrasPendientes(m: Mundo, m': Mundo, id: nat, tipo: TipoProceso, p: nat)
    requires forall n :: n != id ==>
      (n in m'.novedades <==> n in m.novedades) && (n in m.novedades ==> m'.novedades[n] == m.novedades[n])
    requires !PendienteDe(m, id, tipo, p) && !PendienteDe(m', id, tipo, p)
    ensures AlgunaPendiente(m', tipo, p) <==> AlgunaPendiente(m, tipo, p)
  {
    if n :| n in m.novedades && PendienteDe(m, n, tipo, p) { assert PendienteDe(m', n, tipo, p); }
    if n :| n in m'.novedades && PendienteDe(m', n, tipo, p) { assert PendienteDe(m, n, tipo, p); }
  }

  lemma SoloOtro(m: Mundo, m': Mundo, t: TipoProceso, q: nat, tipo: TipoProceso, p: nat)
    requires SoloToca(m, m', t, q) && Existe(m, tipo, p) && !(t == tipo && q == p)
    ensures MismoEstado(m, m', tipo, p)
  {
  }

  lemma CrearIntegro(m: Mundo, e: Evento, capa: Capa)
    requires e.cmd.CrearNovedad? && Integro(m)
    ensures Integro(Tras(m, e, capa))
  {
    CrearMarcaSii(m, e, capa);
  }

  lemma CrearAcopla(m: Mundo, e: Evento, capa: Capa, tipo: TipoProceso, p: nat)
    requires e.cmd.CrearNovedad? && Integro(m) && Acoplado(m, tipo, p)
    ensures Integro(Tras(m, e, capa)) && Acoplado(Tras(m, e, capa), tipo, p)
  {
    CrearIntegro(m, e, capa);
    if Paso(m, e, capa).Bien? {
      CrearMarcaSii(m, e, capa);
      var id, t, q := e.cmd.id, e.cmd.tipo, e.cmd.proceso;
      var m' := Tras(m, e, capa);
      if (t, q) == (tipo, p) {
        assert PendienteDe(m', id, tipo, p);
      } else {
        OtrasPendientes(m, m', id, tipo, p);
        SoloOtro(m, m', t, q, tipo, p);
      }
    }
  }

  lemma ResolverAcopla(m: Mundo, e: Evento, capa: Capa, tipo: TipoProceso, p: nat)
    requires e.cmd.ResolverNovedad? && Integro(m) && Acoplado(m, tipo, p)
    ensures Integro(Tras(m, e, capa)) && Acoplado(Tras(m, e, capa), tipo, p)
  {
    ResolverRevierteSii(m, e, capa);
    if Paso(m, e, capa).Bien? {
      var m', n := Tras(m, e, capa), m.novedades[e.cmd.id];
      if (n.tipo, n.proceso) == (tipo, p) {
        assert PendienteDe(m, e.cmd.id, tipo, p);
      } else {
        OtrasPendientes(m, m', e.cmd.id, tipo, p);
        SoloOtro(m, m', n.tipo, n.proceso, tipo, p);
      }
    }
  }

  /** In every run of requests that create and resolve novedades, of this process and of any others, a process that
      starts coupled, `revisado` with nothing pending for instance, is `con_novedades` exactly while some novedad of it
      is unresolved and `revisado` otherwise. */
  lemma {:induction false} SiempreAcoplado(m: Mundo, es: seq<Evento>, capa: Capa, tipo: TipoProceso, p: nat)
    requires Integro(m) && Acoplado(m, tipo, p)
    requires forall k :: 0 <= k < |es| ==> EsDeNovedad(es[k])
    ensures Integro(Desde(m, es, capa)) && Acoplado(Desde(m, es, capa), tipo, p)
  {
    if es != [] {
      var n := |es| - 1;
      SiempreAcoplado(m, es[..n], capa, tipo, p);
      if es[n].cmd.CrearNovedad? {
        CrearAcopla(Desde(m, es[..n], capa), es[n], capa, tipo, p);
      } else {
        ResolverAcopla(Desde(m, es[..n], capa), es[n], capa, tipo, p);
      }
    }
  }

  /** The same spelled out on the rows. */
  lemma NovedadesEnClaro(m: Mundo, es: seq<Evento>, capa: Capa, tipo: TipoProceso, p: nat)
    requires Integro(m) && EstaRevisado(m, tipo, p)
    requires forall n :: n in m.novedades && m.novedades[n].proceso == p ==> m.novedades[n].estado == Resuelta
    requires forall k :: 0 <= k < |es| ==> es[k].cmd.CrearNovedad? || es[k].cmd.ResolverNovedad?
    ensures var f := Desde(m, es, capa);
      var pendiente := exists n :: && n in f.novedades && f.novedades[n].tipo == tipo && f.novedades[n].proceso == p
                                   && f.novedades[n].estado != Resuelta;
      && (tipo == EsTraslado ==>
            && p in f.traslados
            && f.traslados[p].estado == if pendiente then EstadoTraslado.ConNovedades else EstadoTraslado.Revisado)
      && (tipo == EsRadicacion ==>
            && p in f.radicaciones
            && f.radicaciones[p].estado
               == if pendiente then EstadoRadicacion.ConNovedades else EstadoRadicacion.Revisado)
  {
    assert forall n :: !PendienteDe(m, n, tipo, p);
    SiempreAcoplado(m, es, capa, tipo, p);
    var f := Desde(m, es, capa);
    if n :| && n in f.novedades && f.novedades[n].tipo == tipo && f.novedades[n].proceso == p
            && f.novedades[n].estado != Resuelta {
      assert PendienteDe(f, n, tipo, p);
    }
  }
}
