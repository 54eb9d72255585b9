/** The two process kinds of a vehicle account: `traslado.py`, `radicacion.py`, `novedad.py`. */
module Procesos {
  import opened Opciones

  datatype EstadoTraslado =
    | SinAsignar | Revisado | ConNovedades | Aprobado | EnviadoOrganismo | Trasladado | Devuelto

  datatype EstadoRadicacion =
    | SinAsignar | Recibido | Revisado | ConNovedades | PendienteRadicar | EnviadoDevolucion | Radicado | Devuelto

  datatype EstadoNovedad = Pendiente | EnRevision | Resuelta

  datatype Motivo =
    | ProcesoActivo | SinTrasladoAprobado | FueraDeSecuencia | TransicionInvalida | FaltaEmpresaOGuia
    | ProcesoTerminado | YaResuelta | SolucionVacia

  datatype Error = NoEncontrada | Regla(motivo: Motivo) | ErrorDeBase

  /** Rows as they are stored. Days are day numbers, instants are ticks. */
  datatype FilaTraslado = FilaTraslado(
    cuenta: nat, organismo: Opcion<nat>, empresa: Opcion<nat>, estado: EstadoTraslado, guia: string,
    observaciones: string, aprobadoEn: Opcion<nat>, vencimiento: Opcion<int>, completadoEn: Opcion<nat>,
    creadoEn: nat, actualizadoEn: nat)

  datatype FilaRadicacion = FilaRadicacion(
    cuenta: nat, organismo: Opcion<nat>, empresa: Opcion<nat>, estado: EstadoRadicacion, guia: string,
    guiaDevolucion: string, observaciones: string, radicadoEn: Opcion<nat>, vencimiento: Opcion<int>,
    completadoEn: Opcion<nat>, creadoEn: nat, actualizadoEn: nat)

  datatype TipoProceso = EsTraslado | EsRadicacion

  datatype FilaNovedad = FilaNovedad(tipo: TipoProceso, proceso: nat, estado: EstadoNovedad, solucion: string)

  function TransicionesTraslado(e: EstadoTraslado): seq<EstadoTraslado> {
    match e
    case SinAsignar => [EstadoTraslado.Revisado, EstadoTraslado.ConNovedades, Aprobado]
    case Revisado => [EstadoTraslado.ConNovedades, Aprobado, EstadoTraslado.Devuelto]
    case ConNovedades => [EstadoTraslado.Revisado, Aprobado, EstadoTraslado.Devuelto]
    case Aprobado => [EnviadoOrganismo, EstadoTraslado.Devuelto]
    case EnviadoOrganismo => [Trasladado, EstadoTraslado.Devuelto]
    case Trasladado => []
    case Devuelto => []
  }

  function TransicionesRadicacion(e: EstadoRadicacion): seq<EstadoRadicacion> {
    match e
    case SinAsignar => [Recibido, EstadoRadicacion.Revisado, PendienteRadicar]
    case Recibido => [EstadoRadicacion.Revisado, EstadoRadicacion.ConNovedades]
    case Revisado => [EstadoRadicacion.ConNovedades, PendienteRadicar, EnviadoDevolucion]
    case ConNovedades => [EstadoRadicacion.Revisado, PendienteRadicar, EnviadoDevolucion]
    case PendienteRadicar => [Radicado, EnviadoDevolucion]
    case EnviadoDevolucion => [EstadoRadicacion.Devuelto]
    case Radicado => []
    case Devuelto => []
  }

  predicate TerminalTraslado(e: EstadoTraslado) {
    e == Trasladado || e == EstadoTraslado.Devuelto
  }

  predicate TerminalRadicacion(e: EstadoRadicacion) {
    e == Radicado || e == EstadoRadicacion.Devuelto
  }

  predicate Blanco(c: char) {
    c == ' ' || c == '\t' || c == '\n' || c == '\r'
  }

  /** str.strip() */
  function Recortar(s: string): string {
    if s == "" then ""
    else if Blanco(s[0]) then Recortar(s[1..])
    else if Blanco(s[|s| - 1]) then Recortar(s[..|s| - 1])
    else s
  }

  function CambiarTraslado(f: FilaTraslado, nuevo: EstadoTraslado, motivo: string,
                           ahora: nat): Resultado<FilaTraslado, Error> {
    if nuevo !in TransicionesTraslado(f.estado) then Mal(Regla(TransicionInvalida))
    else Bien(f.(estado := nuevo, observaciones := if motivo != "" then motivo else f.observaciones,
                 actualizadoEn := ahora))
  }

  function CambiarRadicacion(f: FilaRadicacion, nuevo: EstadoRadicacion, motivo: string,
                             ahora: nat): Resultado<FilaRadicacion, Error> {
    if nuevo !in TransicionesRadicacion(f.estado) then Mal(Regla(TransicionInvalida))
    else Bien(f.(estado := nuevo, observaciones := if motivo != "" then motivo else f.observaciones,
                 radicadoEn := if nuevo == Radicado then Algo(ahora) else f.radicadoEn, actualizadoEn := ahora))
  }

  function Resolver(f: FilaNovedad, solucion: string): Resultado<FilaNovedad, Error> {
    if f.estado == Resuelta then Mal(Regla(YaResuelta))
    else if Recortar(solucion) == "" then Mal(Regla(SolucionVacia))
    else Bien(f.(estado := Resuelta, solucion := Recortar(solucion)))
  }

  // ---------------------------------------------------------------- entities

  class Traslado {
    const cuenta: nat
    var organismo: Opcion<nat>
    var empresa: Opcion<nat>
    var estado: EstadoTraslado
    var guia: string
    var observaciones: string
    const aprobadoEn: Opcion<nat>
    const vencimiento: Opcion<int>
    const completadoEn: Opcion<nat>
    const creadoEn: nat
    var actualizadoEn: nat

    function Fila(): FilaTraslado
      reads this
    {
      FilaTraslado(cuenta, organismo, empresa, estado, guia, observaciones, aprobadoEn, vencimiento, completadoEn,
                   creadoEn, actualizadoEn)
    }

    constructor Nuevo(cuenta: nat, organismo: Opcion<nat>, empresa: Opcion<nat>, ahora: nat)
      ensures Fila() == FilaTraslado(cuenta, organismo, empresa, EstadoTraslado.SinAsignar, "", "", Nada, Nada, Nada,
                                     ahora, ahora)
    {
      this.cuenta, this.organismo, this.empresa := cuenta, organismo, empresa;
      estado, guia, observaciones := EstadoTraslado.SinAsignar, "", "";
      aprobadoEn, vencimiento, completadoEn, creadoEn, actualizadoEn := Nada, Nada, Nada, ahora, ahora;
    }

    constructor DeFila(f: FilaTraslado)
      ensures Fila() == f
    {
      cuenta, organismo, empresa := f.cuenta, f.organismo, f.empresa;
      estado, guia, observaciones := f.estado, f.guia, f.observaciones;
      aprobadoEn, vencimiento, completadoEn := f.aprobadoEn, f.vencimiento, f.completadoEn;
      creadoEn, actualizadoEn := f.creadoEn, f.actualizadoEn;
    }

    method CambiarEstado(nuevo: EstadoTraslado, motivo: string, ahora: nat) returns (error: Opcion<Error>)
      modifies this
      ensures match CambiarTraslado(old(Fila()), nuevo, motivo, ahora)
              case Bien(f) => error == Nada && Fila() == f
              case Mal(e) => error == Algo(e) && Fila() == old(Fila())
    {
      var permitidos := TransicionesTraslado(estado);
      if nuevo !in permitidos { return Algo(Regla(TransicionInvalida)); }
      estado := nuevo;
      if motivo != "" { observaciones := motivo; }
      actualizadoEn := ahora;
      return Nada;
    }
  }

  class Radicacion {
    const cuenta: nat
    var organismo: Opcion<nat>
    var empresa: Opcion<nat>
    var estado: EstadoRadicacion
    var guia: string
    var guiaDevolucion: string
    var observaciones: string
    var radicadoEn: Opcion<nat>
    const vencimiento: Opcion<int>
    const completadoEn: Opcion<nat>
    const creadoEn: nat
    var actualizadoEn: nat

    function Fila(): FilaRadicacion
      reads this
    {
      FilaRadicacion(cuenta, organismo, empresa, estado, guia, guiaDevolucion, observaciones, radicadoEn, vencimiento,
                     completadoEn, creadoEn, actualizadoEn)
    }

    constructor Nueva(cuenta: nat, organismo: Opcion<nat>, empresa: Opcion<nat>, ahora: nat)
      ensures Fila() == FilaRadicacion(cuenta, organismo, empresa, EstadoRadicacion.SinAsignar, "", "", "", Nada,
                                       Nada, Nada, ahora, ahora)
    {
      this.cuenta, this.organismo, this.empresa := cuenta, organismo, empresa;
      estado, guia, guiaDevolucion, observaciones := EstadoRadicacion.SinAsignar, "", "", "";
      radicadoEn, vencimiento, completadoEn, creadoEn, actualizadoEn := Nada, Nada, Nada, ahora, ahora;
    }

    constructor DeFila(f: FilaRadicacion)
      ensures Fila() == f
    {
      cuenta, organismo, empresa := f.cuenta, f.organismo, f.empresa;
      estado, guia, guiaDevolucion, observaciones := f.estado, f.guia, f.guiaDevolucion, f.observaciones;
      radicadoEn, vencimiento, completadoEn := f.radicadoEn, f.vencimiento, f.completadoEn;
      creadoEn, actualizadoEn := f.creadoEn, f.actualizadoEn;
    }

    method CambiarEstado(nuevo: EstadoRadicacion, motivo: string, ahora: nat) returns (error: Opcion<Error>)
      modifies this
      ensures match CambiarRadicacion(old(Fila()), nuevo, motivo, ahora)
              case Bien(f) => error == Nada && Fila() == f
              case Mal(e) => error == Algo(e) && Fila() == old(Fila())
    {
      var permitidos := TransicionesRadicacion(estado);
      if nuevo !in permitidos { return Algo(Regla(TransicionInvalida)); }
      estado := nuevo;
      if motivo != "" { observaciones := motivo; }
      if nuevo == Radicado { radicadoEn := Algo(ahora); }
      actualizadoEn := ahora;
      return Nada;
    }
  }
}
