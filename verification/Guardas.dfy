/** What each request of `Movilidad` decides and writes, row by row: when it is accepted, what every refusal says
    about the tables, and every column of the row it leaves. */
module Guardas {
  import opened Opciones
  import opened Procesos
  import opened Movilidad
  import DiasHabiles

  // ---------------------------------------------------------------- creating

  /** Every completed traslado of the account is followed, or matched, by a completed radicación. */
  ghost predicate TrasladosRadicados(m: Mundo, c: nat) {
    forall i :: i in m.traslados && m.traslados[i].cuenta == c && m.traslados[i].estado == Trasladado ==>
      exists r :: && r in m.radicaciones && m.radicaciones[r].cuenta == c && m.radicaciones[r].estado == Radicado
                  && m.traslados[i].actualizadoEn <= m.radicaciones[r].actualizadoEn
  }

  /** And the other way round. */
  ghost predicate RadicadosTrasladados(m: Mundo, c: nat) {
    forall r :: r in m.radicaciones && m.radicaciones[r].cuenta == c && m.radicaciones[r].estado == Radicado ==>
      exists i :: && i in m.traslados && m.traslados[i].cuenta == c && m.traslados[i].estado == Trasladado
                  && m.radicaciones[r].actualizadoEn <= m.traslados[i].actualizadoEn
  }

  lemma SecuenciaDeTraslado(m: Mundo, c: nat)
    ensures FaltaElOtro(Reciente(FechasTrasladado(m, c)), Reciente(FechasRadicado(m, c))) <==> !TrasladosRadicados(m, c)
  {
    var ft, fr := Reciente(FechasTrasladado(m, c)), Reciente(FechasRadicado(m, c));
    forall i | i in m.traslados && m.traslados[i].cuenta == c && m.traslados[i].estado == Trasladado
      ensures m.traslados[i].actualizadoEn in FechasTrasladado(m, c)
    {
    }
    forall r | r in m.radicaciones && m.radicaciones[r].cuenta == c && m.radicaciones[r].estado == Radicado
      ensures m.radicaciones[r].actualizadoEn in FechasRadicado(m, c)
    {
    }
  }

  lemma SecuenciaDeRadicacion(m: Mundo, c: nat)
    ensures FaltaElOtro(Reciente(FechasRadicado(m, c)), Reciente(FechasTrasladado(m, c)))
       <==> !RadicadosTrasladados(m, c)
  {
    var ft, fr := Reciente(FechasTrasladado(m, c)), Reciente(FechasRadicado(m, c));
    forall i | i in m.traslados && m.traslados[i].cuenta == c && m.traslados[i].estado == Trasladado
      ensures m.traslados[i].actualizadoEn in FechasTrasladado(m, c)
    {
    }
    forall r | r in m.radicaciones && m.radicaciones[r].cuenta == c && m.radicaciones[r].estado == Radicado
      ensures m.radicaciones[r].actualizadoEn in FechasRadicado(m, c)
    {
    }
  }

  /** A process of the account that is neither `trasladado` nor `radicado`, other than `salvo`. */
  ghost predicate OtroSinCerrar(m: Mundo, c: nat, salvo: nat) {
    || (exists i :: && i in m.traslados && i != salvo
                    && m.traslados[i].cuenta == c && m.traslados[i].estado !in {Trasladado})
    || (exists r :: && r in m.radicaciones && r != salvo
                    && m.radicaciones[r].cuenta == c && m.radicaciones[r].estado !in {Radicado})
  }

  /** A traslado is created exactly for an account that is there, all of whose traslados are completed or returned and
      all of whose completed ones have been answered by a radicación, with a new identifier; and over the triggers only
      if every other process of the account is `trasladado` or `radicado`. The refusals come in this order. */
  lemma CrearTrasladoSii(m: Mundo, e: Evento, capa: Capa)
    requires e.cmd.CrearTraslado?
    ensures var c, id, r := e.cmd.cuenta, e.cmd.id, Paso(m, e, capa);
      var libre := forall i :: i in m.traslados && m.traslados[i].cuenta == c ==>
        m.traslados[i].estado == Trasladado || m.traslados[i].estado == EstadoTraslado.Devuelto;
      && (r.Bien? <==> && c in m.cuentas && libre && TrasladosRadicados(m, c) && id !in m.traslados
                       && (capa.ConDisparadores? ==> !OtroSinCerrar(m, c, id)))
      && (r.Mal? ==> r.error == if c !in m.cuentas then NoEncontrada
                                else if !libre then Regla(ProcesoActivo)
                                else if !TrasladosRadicados(m, c) then Regla(FueraDeSecuencia)
                                else ErrorDeBase)
      && (r.Bien? ==> r.valor == m.(traslados := m.traslados[id :=
            FilaTraslado(c, Algo(e.cmd.organismo), e.cmd.empresa, EstadoTraslado.SinAsignar, "", "",
                         Nada, Nada, Nada, e.ahora, e.ahora)]))
  {
    SecuenciaDeTraslado(m, e.cmd.cuenta);
  }

  /** A radicación is created exactly for an account that is there, all of whose radicaciones are completed or
      returned, that has an `aprobado` traslado and whose completed radicaciones have all been answered by a traslado,
      with a new identifier; and over the triggers only under the same further condition. */
  lemma CrearRadicacionSii(m: Mundo, e: Evento, capa: Capa)
    requires e.cmd.CrearRadicacion?
    ensures var c, id, r := e.cmd.cuenta, e.cmd.id, Paso(m, e, capa);
      var libre := forall i :: i in m.radicaciones && m.radicaciones[i].cuenta == c ==>
        m.radicaciones[i].estado == Radicado || m.radicaciones[i].estado == EstadoRadicacion.Devuelto;
      var aprobado := exists i :: i in m.traslados && m.traslados[i].cuenta == c && m.traslados[i].estado == Aprobado;
      && (r.Bien? <==> && c in m.cuentas && libre && aprobado && RadicadosTrasladados(m, c) && id !in m.radicaciones
                       && (capa.ConDisparadores? ==> !OtroSinCerrar(m, c, id)))
      && (r.Mal? ==> r.error == if c !in m.cuentas then NoEncontrada
                                else if !libre then Regla(ProcesoActivo)
                                else if !aprobado then Regla(SinTrasladoAprobado)
                                else if !RadicadosTrasladados(m, c) then Regla(FueraDeSecuencia)
                                else ErrorDeBase)
      && (r.Bien? && capa.SoloAplicacion? ==> r.valor == m.(radicaciones := m.radicaciones[id :=
            FilaRadicacion(c, Algo(e.cmd.organismo), e.cmd.empresa, EstadoRadicacion.SinAsignar, "", "", "",
                           Nada, Nada, Nada, e.ahora, e.ahora)]))
  {
    SecuenciaDeRadicacion(m, e.cmd.cuenta);
  }

  // ---------------------------------------------------------------- changing state

  /** The transitions of a traslado: among the first states to any later one of them and to `aprobado`, then step by
      step to the end, and to `devuelto` from every state but the first and the last ones. */
  lemma TransicionTrasladoSii(a: EstadoTraslado, b: EstadoTraslado)
    ensures b in TransicionesTraslado(a) <==>
      || (&& a in {EstadoTraslado.SinAsignar, EstadoTraslado.Revisado, EstadoTraslado.ConNovedades} && a != b
          && b in {EstadoTraslado.Revisado, EstadoTraslado.ConNovedades, Aprobado})
      || (a == Aprobado && b == EnviadoOrganismo)
      || (a == EnviadoOrganismo && b == Trasladado)
      || (&& a in {EstadoTraslado.Revisado, EstadoTraslado.ConNovedades, Aprobado, EnviadoOrganismo}
          && b == EstadoTraslado.Devuelto)
  {
  }

  /** The states from which a radicación reaches each state. */
  lemma TransicionRadicacionSii(a: EstadoRadicacion, b: EstadoRadicacion)
    ensures b in TransicionesRadicacion(a) <==> match b
      case SinAsignar => false
      case Recibido => a == EstadoRadicacion.SinAsignar
      case Revisado => a in {EstadoRadicacion.SinAsignar, Recibido, EstadoRadicacion.ConNovedades}
      case ConNovedades => a in {Recibido, EstadoRadicacion.Revisado}
      case PendienteRadicar =>
        a in {EstadoRadicacion.SinAsignar, EstadoRadicacion.Revisado, EstadoRadicacion.ConNovedades}
      case EnviadoDevolucion => a in {EstadoRadicacion.Revisado, EstadoRadicacion.ConNovedades, PendienteRadicar}
      case Radicado => a == PendienteRadicar
      case Devuelto => a == EnviadoDevolucion
  {
  }

  /** The terminal states are those that nothing leaves. */
  lemma TerminalSinSalida(a: EstadoTraslado, r: EstadoRadicacion)
    ensures TerminalTraslado(a) <==> forall b :: b !in TransicionesTraslado(a)
    ensures TerminalRadicacion(r) <==> forall b :: b !in TransicionesRadicacion(r)
  {
    assert !TerminalTraslado(a) ==> TransicionesTraslado(a)[0] in TransicionesTraslado(a);
    assert !TerminalRadicacion(r) ==> TransicionesRadicacion(r)[0] in TransicionesRadicacion(r);
  }

  /** A traslado changes state exactly if it is there and the transition is in the table; what the request brings
      replaces what the row has, what it leaves out stays, and no other row changes. The triggers may then stamp the
      approval, the deadline and the completion. */
  lemma CambiarTrasladoSii(m: Mundo, e: Evento, capa: Capa)
    requires e.cmd.CambiarEstadoTraslado?
    ensures var k, id, r := e.cmd, e.cmd.id, Paso(m, e, capa);
      && (r.Bien? <==> id in m.traslados && k.nuevoT in TransicionesTraslado(m.traslados[id].estado))
      && (r.Mal? ==> r.error == if id !in m.traslados then NoEncontrada else Regla(TransicionInvalida))
      && (r.Bien? ==>
          var v, w := m.traslados[id], r.valor.traslados;
          && id in w && r.valor == m.(traslados := m.traslados[id := w[id]])
          && w[id].estado == k.nuevoT && w[id].actualizadoEn == e.ahora
          && w[id].cuenta == v.cuenta && w[id].creadoEn == v.creadoEn
          && w[id].guia == (if k.guia == "" then v.guia else k.guia)
          && w[id].observaciones == (if k.motivo == "" then v.observaciones else k.motivo)
          && w[id].organismo == (if k.organismoOp.Nada? then v.organismo else k.organismoOp)
          && w[id].empresa == (if k.empresa.Nada? then v.empresa else k.empresa)
          && (capa.SoloAplicacion? ==> w[id].aprobadoEn == v.aprobadoEn && w[id].vencimiento == v.vencimiento
                                       && w[id].completadoEn == v.completadoEn))
  {
  }

  /** Space, tab, line feed or carriage return. */
  predicate Hueco(c: char) {
    c in {' ', '\t', '\n', '\r'}
  }

  predicate EnBlanco(s: string) {
    forall i :: 0 <= i < |s| ==> Hueco(s[i])
  }

  /** Stripping takes away blanks from both ends and nothing else, as far as it can. */
  lemma {:induction false} RecortarQuita(s: string) returns (i: nat, j: nat)
    ensures i <= j <= |s| && Recortar(s) == s[i..j]
    ensures forall k :: 0 <= k < i || j <= k < |s| ==> Hueco(s[k])
    ensures i < j ==> !Hueco(s[i]) && !Hueco(s[j - 1])
    decreases |s|
  {
    if s == "" {
      i, j := 0, 0;
    } else if Blanco(s[0]) {
      i, j := RecortarQuita(s[1..]);
      QuitaPrimero(s, i, j);
      i, j := i + 1, j + 1;
    } else if Blanco(s[|s| - 1]) {
      i, j := RecortarQuita(s[..|s| - 1]);
      assert s[..|s| - 1][i..j] == s[i..j];
    } else {
      i, j := 0, |s|;
    }
  }

  lemma QuitaPrimero(s: string, i: nat, j: nat)
    requires s != "" && i <= j < |s|
    ensures s[1..][i..j] == s[i + 1..j + 1] && forall k :: 1 <= k < |s| ==> s[k] == s[1..][k - 1]
  {
  }

  /** So it leaves nothing exactly of a text of blanks. */
  lemma RecortarVacioSii(s: string)
    ensures Recortar(s) == "" <==> EnBlanco(s)
  {
    var i, j := RecortarQuita(s);
    assert i < j ==> !Hueco(s[i]);
  }

  /** A radicación changes state exactly if it is there, the transition is in the table, and to be `devuelto` it has a
      carrier and a guide that is not blank, brought by the request or its own; the lack of these is told first. */
  lemma CambiarRadicacionSii(m: Mundo, e: Evento, capa: Capa)
    requires e.cmd.CambiarEstadoRadicacion?
    ensures var k, id, r := e.cmd, e.cmd.id, Paso(m, e, capa);
      var falta := id in m.radicaciones && k.nuevoR == EstadoRadicacion.Devuelto
        && ((k.empresa.Nada? && m.radicaciones[id].empresa.Nada?)
            || EnBlanco(if k.guia == "" then m.radicaciones[id].guia else k.guia));
      && (r.Bien? <==> id in m.radicaciones && !falta && k.nuevoR in TransicionesRadicacion(m.radicaciones[id].estado))
      && (r.Mal? ==> r.error == if id !in m.radicaciones then NoEncontrada
                                else if falta then Regla(FaltaEmpresaOGuia) else Regla(TransicionInvalida))
      && (r.Bien? ==>
          var v, w := m.radicaciones[id], r.valor.radicaciones;
          && id in w && r.valor == m.(radicaciones := m.radicaciones[id := w[id]])
          && w[id].estado == k.nuevoR && w[id].actualizadoEn == e.ahora
          && w[id].cuenta == v.cuenta && w[id].creadoEn == v.creadoEn && w[id].vencimiento == v.vencimiento
          && w[id].guia == (if k.guia == "" then v.guia else k.guia)
          && w[id].guiaDevolucion == (if k.guiaDevolucion == "" then v.guiaDevolucion else k.guiaDevolucion)
          && w[id].observaciones == (if k.motivo == "" then v.observaciones else k.motivo)
          && w[id].organismo == (if k.organismoOp.Nada? then v.organismo else k.organismoOp)
          && w[id].empresa == (if k.empresa.Nada? then v.empresa else k.empresa)
          && w[id].radicadoEn == (if k.nuevoR == Radicado then Algo(e.ahora) else v.radicadoEn)
          && w[id].completadoEn == (if capa.ConDisparadores? && k.nuevoR == Radicado && v.completadoEn.Nada?
                                    then Algo(e.ahora) else v.completadoEn))
  {
    if e.cmd.id in m.radicaciones {
      RecortarVacioSii(OGuia(e.cmd.guia, m.radicaciones[e.cmd.id].guia));
    }
  }

  // ---------------------------------------------------------------- novedades

  /** Whether and why not a novedad is created, on the rows. */
  lemma CrearNovedadSii(m: Mundo, e: Evento, capa: Capa)
    requires e.cmd.CrearNovedad?
    ensures var p, r := e.cmd.proceso, Paso(m, e, capa);
      var esta := if e.cmd.tipo == EsTraslado then p in m.traslados else p in m.radicaciones;
      var terminado := esta && if e.cmd.tipo == EsTraslado
                               then m.traslados[p].estado in {Trasladado, EstadoTraslado.Devuelto}
                               else m.radicaciones[p].estado in {Radicado, EstadoRadicacion.Devuelto};
      && (r.Bien? <==> esta && !terminado && e.cmd.id !in m.novedades)
      && (r.Mal? ==> r.error == if !esta then NoEncontrada
                                else if terminado then Regla(ProcesoTerminado) else ErrorDeBase)
  {
  }

  /** Whether and why not one is resolved. */
  lemma ResolverSii(m: Mundo, e: Evento, capa: Capa)
    requires e.cmd.ResolverNovedad?
    ensures var id, r := e.cmd.id, Paso(m, e, capa);
      && (r.Bien? <==> id in m.novedades && m.novedades[id].estado != Resuelta && !EnBlanco(e.cmd.solucion))
      && (r.Mal? ==> r.error == if id !in m.novedades then NoEncontrada
                                else if m.novedades[id].estado == Resuelta then Regla(YaResuelta)
                                else Regla(SolucionVacia))
  {
    RecortarVacioSii(e.cmd.solucion);
  }

  /** A traslado before and after: as it was, or marked or brought back now, with every other column as it was. */
  predicate SoloEstadoT(f: FilaTraslado, g: FilaTraslado, ahora: nat) {
    || g == f
    || (&& g.estado in {EstadoTraslado.ConNovedades, EstadoTraslado.Revisado}
        && g == f.(estado := g.estado, actualizadoEn := ahora))
  }

  predicate SoloEstadoR(f: FilaRadicacion, g: FilaRadicacion, ahora: nat) {
    || g == f
    || (&& g.estado in {EstadoRadicacion.ConNovedades, EstadoRadicacion.Revisado}
        && g == f.(estado := g.estado, actualizadoEn := ahora))
  }

  ghost predicate SoloEstados(m: Mundo, n: Mundo, ahora: nat) {
    && n.cuentas == m.cuentas && n.traslados.Keys == m.traslados.Keys && n.radicaciones.Keys == m.radicaciones.Keys
    && (forall id :: id in m.traslados ==> SoloEstadoT(m.traslados[id], n.traslados[id], ahora))
    && (forall id :: id in m.radicaciones ==> SoloEstadoR(m.radicaciones[id], n.radicaciones[id], ahora))
  }

  lemma IntentoSoloEstado(m: Mundo, tipo: TipoProceso, p: nat, conNovedades: bool, ahora: nat, hoy: int, capa: Capa)
    ensures var r := Intentar(m, tipo, p, conNovedades, ahora, hoy, capa); r.Bien? ==> SoloEstados(m, r.valor, ahora)
  {
  }

  /** Creating and resolving novedades changes nothing of a process but its state and the instant of its change. */
  lemma NovedadSoloEstado(m: Mundo, e: Evento, capa: Capa)
    requires e.cmd.CrearNovedad? || e.cmd.ResolverNovedad?
    ensures SoloEstados(m, Tras(m, e, capa), e.ahora)
  {
    match e.cmd {
      case CrearNovedad(id, tipo, p) =>
        IntentoSoloEstado(m.(novedades := m.novedades[id := FilaNovedad(tipo, p, Pendiente, "")]), tipo, p, true,
                          e.ahora, e.hoy, capa);
      case ResolverNovedad(id, solucion) =>
        if id in m.novedades && Resolver(m.novedades[id], solucion).Bien? {
          var n := Resolver(m.novedades[id], solucion).valor;
          IntentoSoloEstado(m.(novedades := m.novedades[id := n]), n.tipo, n.proceso, false, e.ahora, e.hoy, capa);
        }
    }
  }
}
