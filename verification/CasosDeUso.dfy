/** The use cases as they run: load an entity from its row, change it, write it back. Each is proved to do to
    the tables exactly what `Movilidad.Paso` says. */
module CasosDeUso {
  import opened Opciones
  import opened Procesos
  import opened Movilidad
  import DiasHabiles

  /** The session over the tables, with the repositories' writes. `ahora` and `hoy` are the instant and the
      calendar day of the request. */
  class BaseDatos {
    var cuentas: set<nat>
    var traslados: map<nat, FilaTraslado>
    var radicaciones: map<nat, FilaRadicacion>
    var novedades: map<nat, FilaNovedad>
    const capa: Capa

    constructor (cuentas: set<nat>, capa: Capa)
      ensures Vista() == Mundo(cuentas, map[], map[], map[]) && this.capa == capa
    {
      this.cuentas, this.capa := cuentas, capa;
      traslados, radicaciones, novedades := map[], map[], map[];
    }

    function Vista(): Mundo
      reads this
    {
      Mundo(cuentas, traslados, radicaciones, novedades)
    }

    /** TrasladoRepositorioSQL.guardar; a failed INSERT leaves the tables alone. */
    method GuardarTraslado(id: nat, t: Traslado) returns (guardado: bool)
      modifies this
      ensures guardado <==> !(id in old(traslados) || DisparadorRechaza(old(Vista()), t.cuenta, id, capa))
      ensures Vista() == if guardado then old(Vista()).(traslados := old(traslados)[id := t.Fila()]) else old(Vista())
    {
      guardado := !(id in traslados || DisparadorRechaza(Vista(), t.cuenta, id, capa));
      if guardado { traslados := traslados[id := t.Fila()]; }
    }

    /** TrasladoRepositorioSQL.actualizar: only the listed columns are written, then the triggers run. */
    method ActualizarTraslado(id: nat, t: Traslado, ahora: nat, hoy: int)
      requires id in traslados
      modifies this
      ensures var v := old(traslados)[id];
        var g := v.(estado := t.estado, guia := t.guia, observaciones := t.observaciones, organismo := t.organismo,
                    empresa := t.empresa, actualizadoEn := t.actualizadoEn);
        Vista() == old(Vista()).(traslados := old(traslados)[id := AntesDeActualizarTraslado(v, g, capa, ahora, hoy)])
    {
      var v := traslados[id];
      var g := v.(estado := t.estado, guia := t.guia, observaciones := t.observaciones, organismo := t.organismo,
                  empresa := t.empresa, actualizadoEn := t.actualizadoEn);
      if capa.ConDisparadores? {
        if g.estado == Aprobado && v.estado != Aprobado {
          var plazo := DiasHabiles.SumarDiasHabiles(capa.festivos, hoy, PLAZO);
          g := g.(aprobadoEn := Algo(ahora), vencimiento := Algo(plazo));
        }
        if g.estado == Trasladado && g.completadoEn.Nada? {
          g := g.(completadoEn := Algo(ahora));
        }
        g := g.(actualizadoEn := ahora);
      }
      traslados := traslados[id := g];
    }

    method GuardarRadicacion(id: nat, r: Radicacion, hoy: int) returns (guardado: bool)
      modifies this
      ensures guardado <==> !(id in old(radicaciones) || DisparadorRechaza(old(Vista()), r.cuenta, id, capa))
      ensures Vista() == if guardado
        then old(Vista()).(radicaciones := old(radicaciones)[id := AntesDeInsertarRadicacion(r.Fila(), capa, hoy)])
        else old(Vista())
    {
      guardado := !(id in radicaciones || DisparadorRechaza(Vista(), r.cuenta, id, capa));
      if guardado {
        var f := r.Fila();
        if capa.ConDisparadores? && f.vencimiento.Nada? {
          var plazo := DiasHabiles.SumarDiasHabiles(capa.festivos, hoy, PLAZO);
          f := f.(vencimiento := Algo(plazo));
        }
        radicaciones := radicaciones[id := f];
      }
    }

    method ActualizarRadicacion(id: nat, r: Radicacion, ahora: nat)
      requires id in radicaciones
      modifies this
      ensures var g := old(radicaciones)[id].(
          estado := r.estado, guia := r.guia, guiaDevolucion := r.guiaDevolucion, observaciones := r.observaciones,
          organismo := r.organismo, empresa := r.empresa, radicadoEn := r.radicadoEn, actualizadoEn := r.actualizadoEn);
        Vista() == old(Vista()).(radicaciones := old(radicaciones)[id := AntesDeActualizarRadicacion(g, capa, ahora)])
    {
      var g := radicaciones[id].(
        estado := r.estado, guia := r.guia, guiaDevolucion := r.guiaDevolucion, observaciones := r.observaciones,
        organismo := r.organismo, empresa := r.empresa, radicadoEn := r.radicadoEn, actualizadoEn := r.actualizadoEn);
      if capa.ConDisparadores? {
        if g.estado == Radicado && g.completadoEn.Nada? { g := g.(completadoEn := Algo(ahora)); }
        g := g.(actualizadoEn := ahora);
      }
      radicaciones := radicaciones[id := g];
    }
  }

  /** What a use case leaves and answers, against what a step says it should. */
  ghost predicate Cumple(antes: Mundo, r: Resultado<Mundo, Error>, error: Opcion<Error>, despues: Mundo) {
    match r
    case Bien(m) => error == Nada && despues == m
    case Mal(e) => error == Algo(e) && despues == antes
  }

  method CrearTrasladoEjecutar(bd: BaseDatos, c: Comando, ahora: nat) returns (error: Opcion<Error>)
    requires c.CrearTraslado?
    modifies bd
    ensures Cumple(old(bd.Vista()), PasoCrearTraslado(old(bd.Vista()), c, ahora, bd.capa), error, bd.Vista())
  {
    var m := bd.Vista();
    if c.cuenta !in bd.cuentas { return Algo(NoEncontrada); }
    if TrasladoActivo(m, c.cuenta) { return Algo(Regla(ProcesoActivo)); }
    var ultimoTraslado := Reciente(FechasTrasladado(m, c.cuenta));
    if ultimoTraslado.Algo? {
      var ultimaRad := Reciente(FechasRadicado(m, c.cuenta));
      if ultimaRad.Nada? || ultimoTraslado.valor > ultimaRad.valor { return Algo(Regla(FueraDeSecuencia)); }
    }
    var t := new Traslado.Nuevo(c.cuenta, Algo(c.organismo), c.empresa, ahora);
    var ok := bd.GuardarTraslado(c.id, t);
    return if ok then Nada else Algo(ErrorDeBase);
  }

  method CrearRadicacionEjecutar(bd: BaseDatos, c: Comando, ahora: nat, hoy: int) returns (error: Opcion<Error>)
    requires c.CrearRadicacion?
    modifies bd
    ensures Cumple(old(bd.Vista()), PasoCrearRadicacion(old(bd.Vista()), c, ahora, hoy, bd.capa), error, bd.Vista())
  {
    var m := bd.Vista();
    if c.cuenta !in bd.cuentas { return Algo(NoEncontrada); }
    if RadicacionActiva(m, c.cuenta) { return Algo(Regla(ProcesoActivo)); }
    if !TrasladoAprobado(m, c.cuenta) { return Algo(Regla(SinTrasladoAprobado)); }
    var ultimaRad := Reciente(FechasRadicado(m, c.cuenta));
    if ultimaRad.Algo? {
      var ultimoTraslado := Reciente(FechasTrasladado(m, c.cuenta));
      if ultimoTraslado.Nada? || ultimaRad.valor > ultimoTraslado.valor { return Algo(Regla(FueraDeSecuencia)); }
    }
    var r := new Radicacion.Nueva(c.cuenta, Algo(c.organismo), c.empresa, ahora);
    var ok := bd.GuardarRadicacion(c.id, r, hoy);
    return if ok then Nada else Algo(ErrorDeBase);
  }

  method CambiarEstadoTrasladoEjecutar(bd: BaseDatos, id: nat, nuevo: EstadoTraslado, motivo: string, guia: string,
                                       organismo: Opcion<nat>, empresa: Opcion<nat>, ahora: nat, hoy: int)
    returns (error: Opcion<Error>)
    modifies bd
    ensures var r := PasoTraslado(old(bd.Vista()), id, nuevo, motivo, guia, organismo, empresa, ahora, hoy, bd.capa);
      Cumple(old(bd.Vista()), r, error, bd.Vista())
  {
    if id !in bd.traslados { return Algo(NoEncontrada); }
    var t := new Traslado.DeFila(bd.traslados[id]);
    error := t.CambiarEstado(nuevo, motivo, ahora);
    if error.Algo? { return; }
    if guia != "" { t.guia := guia; }
    if organismo.Algo? { t.organismo := organismo; }
    if empresa.Algo? { t.empresa := empresa; }
    bd.ActualizarTraslado(id, t, ahora, hoy);
  }

  /** A return needs a carrier and a guide number, given with the request or already there. */
  method FaltaParaDevolver(r: Radicacion, guia: string, empresa: Opcion<nat>) returns (falta: bool)
    ensures falta <==> OActual(empresa, r.empresa).Nada? || Recortar(OGuia(guia, r.guia)) == ""
  {
    var laEmpresa := if empresa.Algo? then empresa else r.empresa;
    var laGuia := if guia != "" then guia else r.guia;
    falta := laEmpresa.Nada? || laGuia == "" || Recortar(laGuia) == "";
  }

  /** What the request brings replaces what the entity has. */
  method Completar(r: Radicacion, guia: string, guiaDevolucion: string, organismo: Opcion<nat>, empresa: Opcion<nat>)
    modifies r
    ensures var f := old(r.Fila());
      r.Fila() == f.(guia := OGuia(guia, f.guia), guiaDevolucion := OGuia(guiaDevolucion, f.guiaDevolucion),
                     organismo := OActual(organismo, f.organismo), empresa := OActual(empresa, f.empresa))
  {
    if guia != "" { r.guia := guia; }
    if guiaDevolucion != "" { r.guiaDevolucion := guiaDevolucion; }
    if organismo.Algo? { r.organismo := organismo; }
    if empresa.Algo? { r.empresa := empresa; }
  }

  method CambiarEstadoRadicacionEjecutar(bd: BaseDatos, id: nat, nuevo: EstadoRadicacion, motivo: string, guia: string,
                                         guiaDevolucion: string, organismo: Opcion<nat>, empresa: Opcion<nat>,
                                         ahora: nat)
    returns (error: Opcion<Error>)
    modifies bd
    ensures var r := PasoRadicacion(old(bd.Vista()), id, nuevo, motivo, guia, guiaDevolucion, organismo, empresa,
                                    ahora, bd.capa);
      Cumple(old(bd.Vista()), r, error, bd.Vista())
  {
    if id !in bd.radicaciones { return Algo(NoEncontrada); }
    var r := new Radicacion.DeFila(bd.radicaciones[id]);
    if nuevo == EstadoRadicacion.Devuelto {
      var falta := FaltaParaDevolver(r, guia, empresa);
      if falta { return Algo(Regla(FaltaEmpresaOGuia)); }
    }
    error := r.CambiarEstado(nuevo, motivo, ahora);
    if error.Algo? { return; }
    Completar(r, guia, guiaDevolucion, organismo, empresa);
    bd.ActualizarRadicacion(id, r, ahora);
  }

  /** `_cambiar_a_con_novedades_*` and `_revertir_a_revisado_*`: the change is tried and a rule refusal
      swallowed. */
  method IntentarEjecutar(bd: BaseDatos, tipo: TipoProceso, id: nat, conNovedades: bool, ahora: nat, hoy: int)
    returns (error: Opcion<Error>)
    modifies bd
    ensures var r := Intentar(old(bd.Vista()), tipo, id, conNovedades, ahora, hoy, bd.capa);
      Cumple(old(bd.Vista()), r, error, bd.Vista())
  {
    match tipo {
      case EsTraslado =>
        error := CambiarEstadoTrasladoEjecutar(
          bd, id, if conNovedades then EstadoTraslado.ConNovedades else EstadoTraslado.Revisado,
          "", "", Nada, Nada, ahora, hoy);
      case EsRadicacion =>
        error := CambiarEstadoRadicacionEjecutar(
          bd, id, if conNovedades then EstadoRadicacion.ConNovedades else EstadoRadicacion.Revisado,
          "", "", "", Nada, Nada, ahora);
    }
    if error.Algo? && error.valor.Regla? { error := Nada; }
  }

  method CrearNovedadEjecutar(bd: BaseDatos, id: nat, tipo: TipoProceso, proceso: nat, ahora: nat, hoy: int)
    returns (error: Opcion<Error>)
    modifies bd
    ensures var r := PasoCrearNovedad(old(bd.Vista()), id, tipo, proceso, ahora, hoy, bd.capa);
      Cumple(old(bd.Vista()), r, error, bd.Vista())
  {
    if !Existe(bd.Vista(), tipo, proceso) { return Algo(NoEncontrada); }
    if Terminado(bd.Vista(), tipo, proceso) { return Algo(Regla(ProcesoTerminado)); }
    if id in bd.novedades { return Algo(ErrorDeBase); }
    var previas := bd.novedades;
    bd.novedades := bd.novedades[id := FilaNovedad(tipo, proceso, Pendiente, "")];
    error := IntentarEjecutar(bd, tipo, proceso, true, ahora, hoy);
    if error.Algo? { bd.novedades := previas; }
  }

  method ResolverNovedadEjecutar(bd: BaseDatos, id: nat, solucion: string, ahora: nat, hoy: int)
    returns (error: Opcion<Error>)
    modifies bd
    ensures Cumple(old(bd.Vista()), PasoResolver(old(bd.Vista()), id, solucion, ahora, hoy, bd.capa), error, bd.Vista())
  {
    if id !in bd.novedades { return Algo(NoEncontrada); }
    var resuelta := Resolver(bd.novedades[id], solucion);
    if resuelta.Mal? { return Algo(resuelta.error); }
    var n := resuelta.valor;
    var previas := bd.novedades;
    bd.novedades := bd.novedades[id := n];
    error := Nada;
    if !HayPendientes(bd.Vista(), n.proceso) && EnNovedades(bd.Vista(), n.tipo, n.proceso) {
      error := IntentarEjecutar(bd, n.tipo, n.proceso, false, ahora, hoy);
      if error.Algo? { bd.novedades := previas; }
    }
  }

  /** One request, as the API serves it. */
  method Atender(bd: BaseDatos, e: Evento) returns (error: Opcion<Error>)
    modifies bd
    ensures Cumple(old(bd.Vista()), Paso(old(bd.Vista()), e, bd.capa), error, bd.Vista())
    ensures bd.Vista() == Tras(old(bd.Vista()), e, bd.capa)
  {
    match e.cmd {
      case CrearTraslado(_, _, _, _) => error := CrearTrasladoEjecutar(bd, e.cmd, e.ahora);
      case CrearRadicacion(_, _, _, _) => error := CrearRadicacionEjecutar(bd, e.cmd, e.ahora, e.hoy);
      case CambiarEstadoTraslado(id, nuevo, motivo, guia, organismo, empresa) =>
        error := CambiarEstadoTrasladoEjecutar(bd, id, nuevo, motivo, guia, organismo, empresa, e.ahora, e.hoy);
      case CambiarEstadoRadicacion(id, nuevo, motivo, guia, guiaDevolucion, organismo, empresa) =>
        error := CambiarEstadoRadicacionEjecutar(bd, id, nuevo, motivo, guia, guiaDevolucion, organismo, empresa,
                                                 e.ahora);
      case CrearNovedad(id, tipo, proceso) => error := CrearNovedadEjecutar(bd, id, tipo, proceso, e.ahora, e.hoy);
      case ResolverNovedad(id, solucion) => error := ResolverNovedadEjecutar(bd, id, solucion, e.ahora, e.hoy);
    }
  }
}
