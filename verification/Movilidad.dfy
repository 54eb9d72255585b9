/** The movilidad use cases over their repositories, with or without the database triggers of migration 002. */
module Movilidad {
  import opened Opciones
  import opened Procesos
  import DiasHabiles

  /** The tables. A public identifier stands for its row. */
  datatype Mundo = Mundo(cuentas: set<nat>, traslados: map<nat, FilaTraslado>, radicaciones: map<nat, FilaRadicacion>,
                         novedades: map<nat, FilaNovedad>)

  /** The application alone, or over a database with the triggers and a holiday table. */
  datatype Capa = SoloAplicacion | ConDisparadores(festivos: set<int>)

  datatype Comando =
    | CrearTraslado(id: nat, cuenta: nat, organismo: nat, empresa: Opcion<nat>)
    | CrearRadicacion(id: nat, cuenta: nat, organismo: nat, empresa: Opcion<nat>)
    | CambiarEstadoTraslado(id: nat, nuevoT: EstadoTraslado, motivo: string, guia: string, organismoOp: Opcion<nat>,
                            empresa: Opcion<nat>)
    | CambiarEstadoRadicacion(id: nat, nuevoR: EstadoRadicacion, motivo: string, guia: string, guiaDevolucion: string,
                              organismoOp: Opcion<nat>, empresa: Opcion<nat>)
    | CrearNovedad(id: nat, tipo: TipoProceso, proceso: nat)
    | ResolverNovedad(id: nat, solucion: string)

  /** One request: its command, the instant and the calendar day at which it runs. */
  datatype Evento = Evento(cmd: Comando, ahora: nat, hoy: int)

  // ---------------------------------------------------------------- what the repositories look up

  predicate TrasladoActivo(m: Mundo, cuenta: nat) {
    exists id :: id in m.traslados && m.traslados[id].cuenta == cuenta && !TerminalTraslado(m.traslados[id].estado)
  }

  predicate RadicacionActiva(m: Mundo, cuenta: nat) {
    exists id :: id in m.radicaciones && m.radicaciones[id].cuenta == cuenta
      && !TerminalRadicacion(m.radicaciones[id].estado)
  }

  predicate TrasladoAprobado(m: Mundo, cuenta: nat) {
    exists id :: id in m.traslados && m.traslados[id].cuenta == cuenta && m.traslados[id].estado == Aprobado
  }

  function FechasTrasladado(m: Mundo, cuenta: nat): set<nat> {
    set id | id in m.traslados && m.traslados[id].cuenta == cuenta && m.traslados[id].estado == Trasladado
      :: m.traslados[id].actualizadoEn
  }

  function FechasRadicado(m: Mundo, cuenta: nat): set<nat> {
    set id | id in m.radicaciones && m.radicaciones[id].cuenta == cuenta && m.radicaciones[id].estado == Radicado
      :: m.radicaciones[id].actualizadoEn
  }

  lemma {:induction false} HayMayor(s: set<nat>)
    requires s != {}
    ensures exists x :: x in s && forall y :: y in s ==> y <= x
    decreases s
  {
    var x :| x in s;
    var resto := s - {x};
    if resto != {} {
      HayMayor(resto);
      var z :| z in resto && forall y :: y in resto ==> y <= z;
      var w := if z > x then z else x;
      assert w in s && forall y :: y in s ==> y == x || y in resto;
    } else {
      assert x in s && forall y :: y in s ==> y == x || y in resto;
    }
  }

  /** ORDER BY actualizado_en DESC LIMIT 1, of which the guards only use the date. */
  function Reciente(s: set<nat>): (r: Opcion<nat>)
    ensures r.Nada? <==> s == {}
    ensures r.Algo? ==> r.valor in s && forall y :: y in s ==> y <= r.valor
  {
    if s == {} then Nada else (HayMayor(s); var x :| x in s && forall y :: y in s ==> y <= x; Algo(x))
  }

  /** The later of two completions: `ultimo` has none, or `otro` is newer. */
  predicate FaltaElOtro(otro: Opcion<nat>, ultimo: Opcion<nat>) {
    otro.Algo? && (ultimo.Nada? || otro.valor > ultimo.valor)
  }

  // ---------------------------------------------------------------- the triggers

  predicate ProcesoAbierto(m: Mundo, cuenta: nat, salvo: nat) {
    || (exists id :: && id in m.traslados && id != salvo
                     && m.traslados[id].cuenta == cuenta && m.traslados[id].estado != Trasladado)
    || (exists id :: && id in m.radicaciones && id != salvo
                     && m.radicaciones[id].cuenta == cuenta && m.radicaciones[id].estado != Radicado)
  }

  /** validar_proceso_unico, BEFORE INSERT on both tables: it raises. */
  predicate DisparadorRechaza(m: Mundo, cuenta: nat, id: nat, capa: Capa) {
    capa.ConDisparadores? && ProcesoAbierto(m, cuenta, id)
  }

  const PLAZO := 60

  ghost function AntesDeInsertarRadicacion(f: FilaRadicacion, capa: Capa, hoy: int): FilaRadicacion {
    if capa.ConDisparadores? && f.vencimiento.Nada?
    then f.(vencimiento := Algo(DiasHabiles.Sumar(capa.festivos, hoy, PLAZO))) else f
  }

  ghost function AntesDeActualizarTraslado(viejo: FilaTraslado, nuevo: FilaTraslado, capa: Capa, ahora: nat, hoy: int):
    FilaTraslado {
    if capa.SoloAplicacion? then nuevo
    else
      var a := if nuevo.estado == Aprobado && viejo.estado != Aprobado
               then nuevo.(aprobadoEn := Algo(ahora), vencimiento := Algo(DiasHabiles.Sumar(capa.festivos, hoy, PLAZO)))
               else nuevo;
      var b := if a.estado == Trasladado && a.completadoEn.Nada? then a.(completadoEn := Algo(ahora)) else a;
      b.(actualizadoEn := ahora)
  }

  function AntesDeActualizarRadicacion(nuevo: FilaRadicacion, capa: Capa, ahora: nat): FilaRadicacion {
    if capa.SoloAplicacion? then nuevo
    else
      var b := if nuevo.estado == Radicado && nuevo.completadoEn.Nada?
               then nuevo.(completadoEn := Algo(ahora)) else nuevo;
      b.(actualizadoEn := ahora)
  }

  // ---------------------------------------------------------------- one request

  function OActual<T>(pedido: Opcion<T>, actual: Opcion<T>): Opcion<T> {
    if pedido.Algo? then pedido else actual
  }

  function OGuia(pedida: string, actual: string): string {
    if pedida != "" then pedida else actual
  }

  ghost function PasoCrearTraslado(m: Mundo, c: Comando, ahora: nat, capa: Capa): Resultado<Mundo, Error>
    requires c.CrearTraslado?
  {
    if c.cuenta !in m.cuentas then Mal(NoEncontrada)
    else if TrasladoActivo(m, c.cuenta) then Mal(Regla(ProcesoActivo))
    else if FaltaElOtro(Reciente(FechasTrasladado(m, c.cuenta)), Reciente(FechasRadicado(m, c.cuenta)))
    then Mal(Regla(FueraDeSecuencia))
    else if c.id in m.traslados || DisparadorRechaza(m, c.cuenta, c.id, capa) then Mal(ErrorDeBase)
    else Bien(m.(traslados := m.traslados[c.id :=
      FilaTraslado(c.cuenta, Algo(c.organismo), c.empresa, EstadoTraslado.SinAsignar, "", "", Nada, Nada, Nada,
                   ahora, ahora)]))
  }

  ghost function PasoCrearRadicacion(m: Mundo, c: Comando, ahora: nat, hoy: int, capa: Capa): Resultado<Mundo, Error>
    requires c.CrearRadicacion?
  {
    if c.cuenta !in m.cuentas then Mal(NoEncontrada)
    else if RadicacionActiva(m, c.cuenta) then Mal(Regla(ProcesoActivo))
    else if !TrasladoAprobado(m, c.cuenta) then Mal(Regla(SinTrasladoAprobado))
    else if FaltaElOtro(Reciente(FechasRadicado(m, c.cuenta)), Reciente(FechasTrasladado(m, c.cuenta)))
    then Mal(Regla(FueraDeSecuencia))
    else if c.id in m.radicaciones || DisparadorRechaza(m, c.cuenta, c.id, capa) then Mal(ErrorDeBase)
    else Bien(m.(radicaciones := m.radicaciones[c.id := AntesDeInsertarRadicacion(
      FilaRadicacion(c.cuenta, Algo(c.organismo), c.empresa, EstadoRadicacion.SinAsignar, "", "", "", Nada, Nada,
                     Nada, ahora, ahora),
      capa, hoy)]))
  }

  ghost function PasoTraslado(m: Mundo, id: nat, nuevo: EstadoTraslado, motivo: string, guia: string,
                              organismo: Opcion<nat>, empresa: Opcion<nat>, ahora: nat, hoy: int, capa: Capa):
    Resultado<Mundo, Error>
  {
    if id !in m.traslados then Mal(NoEncontrada)
    else
      var viejo := m.traslados[id];
      match CambiarTraslado(viejo, nuevo, motivo, ahora)
      case Mal(e) => Mal(e)
      case Bien(f) =>
        var g := f.(guia := OGuia(guia, f.guia), organismo := OActual(organismo, f.organismo),
                    empresa := OActual(empresa, f.empresa));
        Bien(m.(traslados := m.traslados[id := AntesDeActualizarTraslado(viejo, g, capa, ahora, hoy)]))
  }

  function PasoRadicacion(m: Mundo, id: nat, nuevo: EstadoRadicacion, motivo: string, guia: string,
                          guiaDevolucion: string,
                          organismo: Opcion<nat>, empresa: Opcion<nat>, ahora: nat, capa: Capa): Resultado<Mundo, Error>
  {
    if id !in m.radicaciones then Mal(NoEncontrada)
    else
      var viejo := m.radicaciones[id];
      if nuevo == EstadoRadicacion.Devuelto
         && (OActual(empresa, viejo.empresa).Nada? || Recortar(OGuia(guia, viejo.guia)) == "")
      then Mal(Regla(FaltaEmpresaOGuia))
      else
        match CambiarRadicacion(viejo, nuevo, motivo, ahora)
        case Mal(e) => Mal(e)
        case Bien(f) =>
          var g := f.(guia := OGuia(guia, f.guia), guiaDevolucion := OGuia(guiaDevolucion, f.guiaDevolucion),
                      organismo := OActual(organismo, f.organismo), empresa := OActual(empresa, f.empresa));
          Bien(m.(radicaciones := m.radicaciones[id := AntesDeActualizarRadicacion(g, capa, ahora)]))
  }

  /** Moving a process to `con_novedades` or back to `revisado`, a refusal by the rules being swallowed. */
  ghost function Intentar(m: Mundo, tipo: TipoProceso, id: nat, conNovedades: bool, ahora: nat, hoy: int, capa: Capa):
    Resultado<Mundo, Error> {
    var r := match tipo
      case EsTraslado =>
        PasoTraslado(m, id, if conNovedades then EstadoTraslado.ConNovedades else EstadoTraslado.Revisado,
                     "", "", Nada, Nada, ahora, hoy, capa)
      case EsRadicacion =>
        PasoRadicacion(m, id, if conNovedades then EstadoRadicacion.ConNovedades else EstadoRadicacion.Revisado,
                       "", "", "", Nada, Nada, ahora, capa);
    if r.Mal? && r.error.Regla? then Bien(m) else r
  }

  predicate Existe(m: Mundo, tipo: TipoProceso, id: nat) {
    match tipo case EsTraslado => id in m.traslados case EsRadicacion => id in m.radicaciones
  }

  predicate Terminado(m: Mundo, tipo: TipoProceso, id: nat)
    requires Existe(m, tipo, id)
  {
    match tipo
    case EsTraslado => TerminalTraslado(m.traslados[id].estado)
    case EsRadicacion => TerminalRadicacion(m.radicaciones[id].estado)
  }

  predicate EnNovedades(m: Mundo, tipo: TipoProceso, id: nat) {
    match tipo
    case EsTraslado => id in m.traslados && m.traslados[id].estado == EstadoTraslado.ConNovedades
    case EsRadicacion => id in m.radicaciones && m.radicaciones[id].estado == EstadoRadicacion.ConNovedades
  }

  ghost function PasoCrearNovedad(m: Mundo, id: nat, tipo: TipoProceso, proceso: nat, ahora: nat, hoy: int, capa: Capa):
    Resultado<Mundo, Error> {
    if !Existe(m, tipo, proceso) then Mal(NoEncontrada)
    else if Terminado(m, tipo, proceso) then Mal(Regla(ProcesoTerminado))
    else if id in m.novedades then Mal(ErrorDeBase)
    else Intentar(m.(novedades := m.novedades[id := FilaNovedad(tipo, proceso, Pendiente, "")]), tipo, proceso, true,
                  ahora, hoy, capa)
  }

  /** novedades_pendientes_cuenta looks at the process identifier only, not at the kind of process. */
  predicate HayPendientes(m: Mundo, proceso: nat) {
    exists n :: n in m.novedades && m.novedades[n].proceso == proceso && m.novedades[n].estado != Resuelta
  }

  ghost function PasoResolver(m: Mundo, id: nat, solucion: string, ahora: nat, hoy: int, capa: Capa):
    Resultado<Mundo, Error> {
    if id !in m.novedades then Mal(NoEncontrada)
    else
      match Resolver(m.novedades[id], solucion)
      case Mal(e) => Mal(e)
      case Bien(n) =>
        var m1 := m.(novedades := m.novedades[id := n]);
        if HayPendientes(m1, n.proceso) || !EnNovedades(m1, n.tipo, n.proceso) then Bien(m1)
        else Intentar(m1, n.tipo, n.proceso, false, ahora, hoy, capa)
  }

  ghost function Paso(m: Mundo, e: Evento, capa: Capa): Resultado<Mundo, Error> {
    match e.cmd
    case CrearTraslado(_, _, _, _) => PasoCrearTraslado(m, e.cmd, e.ahora, capa)
    case CrearRadicacion(_, _, _, _) => PasoCrearRadicacion(m, e.cmd, e.ahora, e.hoy, capa)
    case CambiarEstadoTraslado(id, nuevo, motivo, guia, organismo, empresa) =>
      PasoTraslado(m, id, nuevo, motivo, guia, organismo, empresa, e.ahora, e.hoy, capa)
    case CambiarEstadoRadicacion(id, nuevo, motivo, guia, guiaDevolucion, organismo, empresa) =>
      PasoRadicacion(m, id, nuevo, motivo, guia, guiaDevolucion, organismo, empresa, e.ahora, capa)
    case CrearNovedad(id, tipo, proceso) => PasoCrearNovedad(m, id, tipo, proceso, e.ahora, e.hoy, capa)
    case ResolverNovedad(id, solucion) => PasoResolver(m, id, solucion, e.ahora, e.hoy, capa)
  }

  /** A refused request is rolled back. */
  ghost function Tras(m: Mundo, e: Evento, capa: Capa): Mundo {
    match Paso(m, e, capa) case Bien(m') => m' case Mal(_) => m
  }
}
