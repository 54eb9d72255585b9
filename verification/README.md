# Verification of the back-end's state machines

The back-end keeps vehicle accounts, a parking-lot inventory and user access in PostgreSQL and Redis. This project
models the parts of it that have state of their own and proves what they guarantee over whole runs. Names follow the
program's own Spanish vocabulary.

| file | models |
|---|---|
| `Redis.dfy` | the expiring store and the commands the services use |
| `Ventanas.dfy`, `Limitador.dfy`, `Bloqueo.dfy` | counters with a fixed deadline: the rate limiter and the login lockout |
| `Idempotencia.dfy` | the idempotency protocol, as interleaved steps of any number of requests |
| `Permisos.dfy` | the permission lookup through local map, Redis and database, over any number of workers |
| `DiasHabiles.dfy` | business-day arithmetic |
| `Procesos.dfy`, `Movilidad.dfy`, `CasosDeUso.dfy` | traslados, radicaciones and novedades: entities, tables, guards, triggers, use cases |
| `Guardas.dfy` | when each of these requests is accepted, what each refusal says and every column it writes, row by row |
| `Ejecuciones.dfy`, `Alcance.dfy` | what the creation guards mean over whole runs of an account, and that the bounds are attained |
| `Disparadores.dfy` | the same system over the database triggers, and the deadlines they set |
| `Novedades.dfy` | how the novedades of a process and its state go together |
| `Cadena.dfy`, `Inventario.dfy` | the hash chain and the stock ledger |
| `Paginacion.dfy` | keyset pagination |
| `Conjuntos.dfy`, `Opciones.dfy` | finite sets of integers; option and result types |

Each operation that changes state is a method whose contract equates the new state with a pure step function; the
step functions are composed into runs, and the results below are about every run. A request is one atomic step,
except in the idempotency protocol, where each cache access is a step of its own. Days are integers with day 0 a
Sunday, instants are ticks, a UUID is a natural number or a string, and a refused request is rolled back.

What the proofs show that the code or its messages do not say:

- The rate limiter lets through at most `2 * times - 1` requests in any interval of one window's length (`times` if a
  window is a single tick), and the lockout at most `2 * MAX - 2` counted failures (`MAX` if that is 1 or the lockout
  lasts a single tick). Both bounds are attained in every configuration.
- In the application alone an account can be `radicado` once in its life: the refusal that asks for a transfer first
  cannot be complied with, because whenever a traslado is `aprobado` the last completion already was the radicación.
- Over the triggers no radicación can ever be created, and an account has at most one traslado for ever.
- A 2xx response whose body iterator fails leaves the in-flight entry behind, like a body over the size limit:
  lines 130-131 of `idempotency.py` lie outside the `try`. So does a cancelled request: line 114 catches `Exception`,
  and a cancellation is not one.
- A `|` in the origin or the destination of a transfer lets another transfer be hashed from the same text, the one that
  divides the two places at that bar, unless that leaves one of them empty. If it is in the destination, the other
  transfer has one in its origin; so ledgers that are known to have none in any origin are told apart by their last
  hash, whatever their destinations hold.
- A novedad on an approved or dispatched process is stored and the process keeps its state.
- Assigning or revoking a role deletes the cached key before the change is committed. A lookup in between that finds
  nothing to serve in its worker's map and in Redis, and something in the database, puts the old permissions back for a
  whole Redis lifetime; when no lookup in between does, the change takes effect within the local lifetime. Lookups
  served from a cache, and those of a user without permissions, do no harm.
- Editing the permissions of a role deletes no cached key, so such a change is only bounded by both lifetimes together,
  less one tick, and that bound is attained.
- A key whose request ended in a 2xx over the size limit is locked for the rest of its in-flight time and then runs its
  handler again, so that one key can succeed twice.

Run `dafny verify dfyconfig.toml` to check the whole project.

## Model

| member | source | states |
|---|---|---|
| `Idempotencia.ExclusionMutua` | src/app/api/v1/middlewares/idempotency.py:69-156 | For every key and every interleaving of any number of requests, if no holder of that key keeps it longer than the in-flight time, no two requests of it are ever between winning it and their last cache access, however late the holders of other keys are |
| `Idempotencia.PasoExcluye` | src/app/api/v1/middlewares/idempotency.py:69-156 | Every step, of whatever request, keeps exclusion on a key together with the fact it rests on: whoever holds it finds there the entry it wrote, with its own deadline, although entries name no owner; only the holders of that key need be in time |
| `Idempotencia.SinPuntualidadSeSolapan` | src/app/api/v1/middlewares/idempotency.py:99-109 | Without the timing condition exclusion fails, for every key and configuration: a run with two holders of the key |
| `Idempotencia.ResultadoFinal` | src/app/api/v1/middlewares/idempotency.py:70-96 | Under the timing condition on its key alone: from the moment a result is cached until it expires its entry never changes and no handler of its key runs |
| `Idempotencia.EnVueloContesta409` | src/app/api/v1/middlewares/idempotency.py:69-109 | Under the timing condition on the key, while a request of it runs every other one is told 409, at the read and at the claim, and the store does not change |
| `Idempotencia.LibreSeGana` | src/app/api/v1/middlewares/idempotency.py:98-112 | A free key is won by whoever claims it, in every run, and locked for the in-flight time |
| `Idempotencia.RepeticionFiel` | src/app/api/v1/middlewares/idempotency.py:70-96 | Under the timing condition on the key a request that reads after another ended in a 204, or in any other 2xx whose body was read, within the limit and JSON, and before the lifetime of its mode is over, is told exactly its status and body, or 422 in explicit mode with another body |
| `Idempotencia.UnSoloExito` | src/app/api/v1/middlewares/idempotency.py:119-156 | Under the timing condition on the key two such successes of one key end at least one result lifetime apart |
| `Idempotencia.AbandonoCierra` | src/app/api/v1/middlewares/idempotency.py:98-133 | Under the timing condition on the key, after an end that caches nothing and leaves the entry (a 2xx over the limit, for one) no request of the key is in the section before the in-flight time of that entry runs out |
| `Idempotencia.SegundoExito` | src/app/api/v1/middlewares/idempotency.py:98-133 | and at that very instant the key can succeed again: for every configuration, key and such end, a run with everybody in time in which a second request ends the same way |
| `Idempotencia.RespuestasAutenticas` | src/app/api/v1/middlewares/idempotency.py:70-96 | With no timing condition at all: every replayed status and body was produced by a request of that key that ran the handler, in explicit mode one with the same body |
| `Idempotencia.CandadosConDueno` | src/app/api/v1/middlewares/idempotency.py:112-156 | Under the same timing condition a live in-flight entry belongs to a running request of its key, or to one that was cancelled or ended in a 2xx whose body is over the limit or could not be read to its end |
| `Idempotencia.TrasEscribirNoQuedaCandado` | src/app/api/v1/middlewares/idempotency.py:112-156 | The end of a request leaves the in-flight entry exactly in those cases and a stored result exactly for a cacheable 2xx; otherwise the key is free |
| `Idempotencia.EscribirEnClaro` | src/app/api/v1/middlewares/idempotency.py:112-156 | Every end, spelled on its status and body: a 204, and every other 2xx with a body read, within the limit and JSON, is stored with it for the lifetime of its mode; an exception, another status and a body that is not JSON free the key; the rest touch nothing |
| `Idempotencia.LeerEnClaro` | src/app/api/v1/middlewares/idempotency.py:69-96 | Every read, spelled on the entry: a dead or absent one lets the request go on, an in-flight one is 409, a result is replayed or 422 |
| `Idempotencia.JuntarUne` | src/app/api/v1/middlewares/idempotency.py:129-131 | The body read is its chunks one after another: reading one part after another reads the whole |
| `Idempotencia.Despacho.VerificarCache` | src/app/api/v1/middlewares/idempotency.py:69-96 | Reading: miss, in flight (409), other body in explicit mode (422), or replay |
| `Idempotencia.Despacho.AdquirirCandado` | src/app/api/v1/middlewares/idempotency.py:98-109 | Claiming with SET NX: the winner runs, a loser is told 409; the store changes only for the winner |
| `Idempotencia.Despacho.LeerCuerpo` | src/app/api/v1/middlewares/idempotency.py:129-131 | The loop over the body iterator gathers all its chunks in order |
| `Idempotencia.Despacho.EscribirCache` | src/app/api/v1/middlewares/idempotency.py:112-156 | The last cache access after an exception, a 204, a 2xx with its size limit and JSON check, or another status; a cancellation, which no clause catches, makes none |
| `Ejecuciones.ALoSumoUnRadicado` | src/app/application/use_cases/movilidad/crear_radicacion.py:39-62 | In every serial run with a strictly increasing clock an account reaches `radicado` at most once, with or without the triggers |
| `Ejecuciones.ALoSumoDosTrasladados` | src/app/application/use_cases/movilidad/crear_traslado.py:38-54 | and `trasladado` at most twice |
| `Alcance.CotasAlcanzadas` | src/app/application/use_cases/movilidad/crear_radicacion.py:39-74 | Both bounds are attained: for every account and identifiers a run of the application with a completed radicación between two completed traslados |
| `Ejecuciones.SegundaRadicacionImposible` | src/app/application/use_cases/movilidad/crear_radicacion.py:51-62 | Once an account has a completed radicación, creating another is refused in every reachable state, although the refusal asks for a transfer first |
| `Ejecuciones.TrasladosAlternan` | src/app/application/use_cases/movilidad/crear_traslado.py:46-54 | Between any two completed traslados of an account lies a completed radicación |
| `Ejecuciones.UnProcesoActivo` | src/app/infrastructure/persistence/repositorios/movilidad/traslado_repo.py:99-105 | At most one active traslado and at most one active radicación per account in every reachable state |
| `Ejecuciones.SiempreInvariante` | src/app/application/use_cases/movilidad/crear_radicacion.py:39-62 | The invariant of all runs; at its heart, while a traslado is active every completed one is followed by a completed radicación |
| `Ejecuciones.PasoConserva` | src/app/application/use_cases/movilidad/crear_traslado.py:33-66 | Every request, accepted or refused, keeps that invariant from any state that has it |
| `Ejecuciones.TerminalesQuedan` | src/app/domain/entities/movilidad/traslado.py:19-30 | A terminal process is in every later state of the run, unchanged in every column |
| `Ejecuciones.EfectoDe` | src/app/application/use_cases/movilidad/cambiar_estado_traslado.py:26-44 | A request adds one new process that passed the guards, moves one process along the transition table, or leaves both tables alone |
| `Guardas.CrearRadicacionSii` | src/app/application/use_cases/movilidad/crear_radicacion.py:34-74 | When a radicación is created, on the rows of any tables: the account is there, none of its radicaciones is active, it has a traslado in `aprobado`, its completed radicaciones are each answered by a completed traslado no older, the identifier is new, and over the triggers no other process is open; which refusal comes when one fails; and the new row |
| `Guardas.CrearTrasladoSii` | src/app/application/use_cases/movilidad/crear_traslado.py:33-66 | The same for a traslado, which needs no approved one |
| `Guardas.CambiarTrasladoSii` | src/app/application/use_cases/movilidad/cambiar_estado_traslado.py:26-44 | When a traslado changes state and every column it then has: what the request brings, else what it had; no other row changes |
| `Guardas.CambiarRadicacionSii` | src/app/application/use_cases/movilidad/cambiar_estado_radicacion.py:27-55 | The same for a radicación, with the carrier and the non-blank guide that `devuelto` needs, whose lack is told before an invalid transition |
| `Guardas.TransicionTrasladoSii` | src/app/domain/entities/movilidad/traslado.py:22-30 | The transitions of a traslado by rule: among the first states and to `aprobado`, then step by step, and `devuelto` from all but the first and the last |
| `Guardas.TransicionRadicacionSii` | src/app/domain/entities/movilidad/radicacion.py:23-44 | The states from which each state of a radicación is reached |
| `Guardas.TerminalSinSalida` | src/app/domain/entities/movilidad/radicacion.py:20 | The terminal states of both kinds are exactly those that no transition leaves |
| `Guardas.RecortarQuita` | src/app/application/use_cases/movilidad/cambiar_estado_radicacion.py:33-36 | Stripping removes blanks from both ends, all of them and nothing else |
| `Guardas.CrearNovedadSii` | src/app/application/use_cases/movilidad/crear_novedad.py:68-105 | Whether a novedad is created, and why not, on the rows |
| `Guardas.NovedadSoloEstado` | src/app/application/use_cases/movilidad/crear_novedad.py:44-66 | Creating and resolving novedades changes nothing of any process but its state and the instant of its change |
| `Guardas.ResolverSii` | src/app/application/use_cases/movilidad/resolver_novedad.py:67-74 | Whether one is resolved, and why not |
| `CasosDeUso.Atender` | src/app/application/use_cases/movilidad/crear_traslado.py:33-66 | Serving any request on the tables leaves exactly what the step function says, and a refused request leaves everything as it was |
| `CasosDeUso.CrearTrasladoEjecutar` | src/app/application/use_cases/movilidad/crear_traslado.py:33-66 | The imperative use case does and answers what its step says, in each of its refusals |
| `CasosDeUso.CrearRadicacionEjecutar` | src/app/application/use_cases/movilidad/crear_radicacion.py:34-74 | The same, with the approved-traslado guard |
| `CasosDeUso.CambiarEstadoTrasladoEjecutar` | src/app/application/use_cases/movilidad/cambiar_estado_traslado.py:26-44 | Load, change, write back: the same; a refused transition changes nothing |
| `CasosDeUso.CambiarEstadoRadicacionEjecutar` | src/app/application/use_cases/movilidad/cambiar_estado_radicacion.py:27-55 | The same, with the carrier and guide demanded for `devuelto` before the transition is judged |
| `CasosDeUso.CrearNovedadEjecutar` | src/app/application/use_cases/movilidad/crear_novedad.py:68-111 | The novedad is inserted, the mark attempted and a refusal of it swallowed |
| `CasosDeUso.ResolverNovedadEjecutar` | src/app/application/use_cases/movilidad/resolver_novedad.py:67-83 | The novedad is resolved, and the process brought back when nothing is pending and it is marked |
| `CasosDeUso.BaseDatos.ActualizarTraslado` | src/app/infrastructure/persistence/repositorios/movilidad/traslado_repo.py:44-56 | Only the listed columns are written; deadline, approval and completion are the triggers' business |
| `CasosDeUso.BaseDatos.GuardarRadicacion` | src/app/infrastructure/persistence/repositorios/movilidad/radicacion_repo.py:20-43 | The insert, with the trigger that refuses it and the one that dates it |
| `Procesos.Traslado.CambiarEstado` | src/app/domain/entities/movilidad/traslado.py:57-67 | The entity moves along the table or refuses and stays |
| `Procesos.Radicacion.CambiarEstado` | src/app/domain/entities/movilidad/radicacion.py:72-84 | The same, stamping `radicado_en` on `radicado` |
| `Movilidad.Reciente` | src/app/infrastructure/persistence/repositorios/movilidad/traslado_repo.py:107-118 | The date of the last completion: there is none exactly when nothing is completed, otherwise it is one of the dates and no other is later |
| `Disparadores.SiempreUnoAbierto` | alembic/versions/002_movilidad_parqueadero_nunc.py:546-569 | With the triggers every reachable state has at most one process of either kind per account outside {trasladado, radicado} |
| `Disparadores.UnoAbiertoSeConserva` | alembic/versions/002_movilidad_parqueadero_nunc.py:546-569 | and every request keeps that from any state that has it |
| `Disparadores.RadicacionNunca` | src/app/application/use_cases/movilidad/crear_radicacion.py:42-49 | Over the triggers creating a radicación never commits, from any state; one that passes every guard of the application fails in the database |
| `Disparadores.UnTrasladoPorCuenta` | alembic/versions/002_movilidad_parqueadero_nunc.py:550-564 | In every run of the composed system there is never a radicación and an account never gets a second traslado |
| `Disparadores.AltaSii` | alembic/versions/002_movilidad_parqueadero_nunc.py:546-569 | There a traslado is created if and only if the account exists and never had one: a returned one blocks it for good, since the trigger does not count `devuelto` as terminal |
| `Disparadores.PlazoSiiAprobado` | alembic/versions/002_movilidad_parqueadero_nunc.py:583-594 | In every run a traslado has a deadline if and only if some request approved it; exactly one did, its instant is recorded, and exactly sixty business days lie after its day up to the deadline, itself a business day |
| `Disparadores.PlazoNoCambia` | alembic/versions/002_movilidad_parqueadero_nunc.py:583-594 | Once set, deadline and approval instant are the same in every later state of the run |
| `Disparadores.CompletadoSii` | alembic/versions/002_movilidad_parqueadero_nunc.py:596-606 | In every run the completion instant is there exactly for `trasladado` and equals that of the last change |
| `Disparadores.FilasTras` | alembic/versions/002_movilidad_parqueadero_nunc.py:583-606 | What any request does to each traslado row under the triggers: nothing, or a move along the table with exactly these columns stamped |
| `Disparadores.PlazoDeRadicacion` | alembic/versions/002_movilidad_parqueadero_nunc.py:571-581 | The insert trigger keeps a given deadline and sets a missing one so that exactly sixty business days lie up to it |
| `Disparadores.PlazoDeRadicacionFijo` | src/app/infrastructure/persistence/repositorios/movilidad/radicacion_repo.py:45-59 | No request changes the deadline of an existing radicación, from any state |
| `Novedades.SiempreAcoplado` | src/app/application/use_cases/movilidad/resolver_novedad.py:67-80 | In every run of creating and resolving novedades, of this process and any others, a process that starts `revisado` with none pending is `con_novedades` exactly while a novedad of it is unresolved, and `revisado` otherwise |
| `Novedades.NovedadesEnClaro` | src/app/application/use_cases/movilidad/resolver_novedad.py:67-80 | The same on the rows of both tables, from `revisado` with everything resolved |
| `Novedades.CrearMarcaSii` | src/app/application/use_cases/movilidad/crear_novedad.py:44-105 | From any state: creation succeeds exactly for an existing, non-terminal process and a new identifier, and the process ends marked if and only if its state was one of those that admit it |
| `Novedades.AprobadoNoSeMarca` | src/app/application/use_cases/movilidad/crear_novedad.py:44-54 | In any state an approved traslado takes a novedad, which stays unresolved, and its row does not change |
| `Novedades.ResolverRevierteSii` | src/app/application/use_cases/movilidad/resolver_novedad.py:67-80 | Resolution succeeds exactly for an unresolved novedad and a non-blank solution; the process goes back to `revisado` if and only if it was marked and nothing of it is pending, and no other process changes |
| `Novedades.PendientesPorId` | src/app/infrastructure/persistence/repositorios/movilidad/novedad_repo.py:93-100 | Looking pending novedades up by process identifier alone finds those of the process, identifiers being unique across kinds |
| `DiasHabiles.Galois` | alembic/versions/002_movilidad_parqueadero_nunc.py:467-502 | For d <= e and n >= 0: sumar(d, n) <= e if and only if n <= contar(d, e), so the deadline is the least date with n business days |
| `DiasHabiles.CotaDeSumar` | alembic/versions/002_movilidad_parqueadero_nunc.py:467-483 | For every finite holiday set F: sumar(d, n) <= d + 7 * ceil((n + |F|) / 5) |
| `DiasHabiles.ContarDeSumar` | alembic/versions/002_movilidad_parqueadero_nunc.py:467-502 | contar(d, sumar(d, n)) = n; for n > 0 the result is later than d and a business day |
| `DiasHabiles.SumarEnDosPartes` | alembic/versions/002_movilidad_parqueadero_nunc.py:467-483 | sumar(sumar(d, m), n) = sumar(d, m + n) |
| `DiasHabiles.ContarAditivo` | alembic/versions/002_movilidad_parqueadero_nunc.py:485-502 | contar is additive along increasing dates |
| `DiasHabiles.ContarAsimetrico` | alembic/versions/002_movilidad_parqueadero_nunc.py:485-502 | contar(a, b) + contar(b, a) is 1 for a business day b minus 1 for a business day a |
| `DiasHabiles.CincoDeSiete` | alembic/versions/002_movilidad_parqueadero_nunc.py:459-465 | The business days of a stretch are its weekdays, five in every seven, less exactly the holidays that fall on one |
| `DiasHabiles.ContarDiaADia` | alembic/versions/002_movilidad_parqueadero_nunc.py:459-502 | What is counted, day by day: neither Sundays nor Saturdays nor holidays, after the first day up to the last, or backwards from the last to before the first, negatively |
| `DiasHabiles.SumarDiaADia` | alembic/versions/002_movilidad_parqueadero_nunc.py:459-483 | The sum day by day: a business day that is the last of exactly so many, or the same day for none |
| `DiasHabiles.SumarDiasHabiles` | alembic/versions/002_movilidad_parqueadero_nunc.py:467-483 | The loop terminates for every holiday set and returns that date |
| `DiasHabiles.ContarDiasHabiles` | alembic/versions/002_movilidad_parqueadero_nunc.py:485-502 | The loop, in both directions, returns the signed number of business days it passes |
| `Inventario.PedidoAceptadoSii` | src/app/api/v1/routers/parqueadero/inventarios.py:249-314 | In every run a request is accepted if and only if it names a place and a positive amount that fits, an arrival no origin and a transfer one, the item is in the catalogue, the log leaves enough at the origin and what arrives fits |
| `Inventario.RechazoDice` | src/app/api/v1/routers/parqueadero/inventarios.py:249-313 | and which refusal it gets otherwise, with the amount available |
| `Inventario.AsientoDice` | src/app/api/v1/routers/parqueadero/inventarios.py:271-286 | An accepted request adds one movement at the end of the log with all that the request said |
| `Inventario.LogRegistrable` | src/app/api/v1/routers/parqueadero/inventarios.py:68-74 | Every movement of every run has a positive amount that fits, a destination, and an origin exactly if it is a transfer, as the results on the chain ask |
| `Inventario.StockEsReplay` | src/app/api/v1/routers/parqueadero/inventarios.py:301-314 | After every run each (item, place) holds exactly what the log brings in minus what it takes out, and is never negative |
| `Inventario.TotalEsIngresos` | src/app/api/v1/routers/parqueadero/inventarios.py:288-293 | After every run the total of an item over its places is the sum of its arrivals |
| `Inventario.MoverConserva` | src/app/api/v1/routers/parqueadero/inventarios.py:289-293 | A transfer preserves the item's total, also with origin equal to destination |
| `Inventario.TrasladoAceptadoSii` | src/app/api/v1/routers/parqueadero/inventarios.py:301-314 | In every reachable state a well-formed transfer of a known item is accepted if and only if the log balance of the origin covers it and what arrives fits |
| `Inventario.LogSiempreEncadenado` | src/app/api/v1/routers/parqueadero/inventarios.py:254-285 | In every run with a strictly increasing clock each item's log is a chain: every hash recomputes, every movement names the one before it |
| `Inventario.HistoriaInalterable` | src/app/api/v1/routers/parqueadero/inventarios.py:236-286 | Two ledgers, whatever their runs, whose logs of an item end in the same hash agree on every hashed field of every movement of it, when no origin holds a bar |
| `Inventario.UltimoEsCola` | src/app/api/v1/routers/parqueadero/inventarios.py:255-260 | The newest row of the item is the end of its log |
| `Inventario.Inventario.RegistrarMovimiento` | src/app/api/v1/routers/parqueadero/inventarios.py:242-298 | The request leaves the step function's ledger, and on any refusal the ledger it found |
| `Inventario.Inventario.ActualizarFila` | src/app/api/v1/routers/parqueadero/inventarios.py:301-314 | The stock row is updated or created, or the shortage reported with what is there |
| `Cadena.CadenaFijaHistoria` | src/app/api/v1/routers/parqueadero/inventarios.py:236-239 | Two chains that end in the same hash have the same length and agree on every hashed field |
| `Cadena.MismoHash` | src/app/api/v1/routers/parqueadero/inventarios.py:236-239 | Two movements with one hash agree on every hashed field if and only if their origins are equally long; bar-free origins suffice, whatever the destinations hold |
| `Cadena.DatosFijan` | src/app/api/v1/routers/parqueadero/inventarios.py:238 | The eight-field join fixes every field except where origin ends and destination begins |
| `Cadena.DatosEnClaro` | src/app/api/v1/routers/parqueadero/inventarios.py:236-239 | The text is the bar-separated list of the eight fields in this order, with what is missing empty |
| `Cadena.NaturalEsDecimal` | src/app/api/v1/routers/parqueadero/inventarios.py:238 | Amounts are written in decimal digits that read back as the amount, without leading zeros |
| `Cadena.GemeloMismoTexto` | src/app/api/v1/routers/parqueadero/inventarios.py:238 | For every row and every bar in its origin or destination, the row that divides the two there has the same text, and other fields unless it is the dividing bar |
| `Cadena.MismoTextoSii` | src/app/api/v1/routers/parqueadero/inventarios.py:238 | and no other row has it: two rows have one text if and only if one divides the other's places at a bar |
| `Cadena.FijaCamposSii` | src/app/api/v1/routers/parqueadero/inventarios.py:238 | A row's text pins all its hashed fields if and only if neither origin nor destination holds a bar |
| `Cadena.FijaRegistrablesSii` | src/app/api/v1/routers/parqueadero/inventarios.py:236-252 | Among the rows the ledger accepts, an arrival is always pinned, and a transfer if and only if no other bar divides its places leaving neither empty |
| `Inventario.MismaColaOtraHistoria` | src/app/api/v1/routers/parqueadero/inventarios.py:254-285 | From any ledger, two accepted transfers that divide the same places differently leave the item's log with one last hash and different last movements |
| `Inventario.ColaAmbigua` | src/app/api/v1/routers/parqueadero/inventarios.py:236-286 | The bar-free condition is needed: for every hash, catalogue item and places, two runs whose logs of the item end in one hash and differ |
| `Cadena.FielEsPosible` | src/app/api/v1/routers/parqueadero/inventarios.py:236-239 | What the results ask of the hash and of timestamps can be had: some hash and writing of timestamps satisfy it |
| `Paginacion.RefinaOrdenar` | src/app/infrastructure/persistence/repositorios/auth/usuario_repo.py:101-125 | Following the cursors over a fixed table yields the filtered rows in (creado_en, id) descending order, each once; the number of rows is the sum of the page lengths |
| `Paginacion.RecorridoEnClaro` | src/app/infrastructure/persistence/repositorios/auth/usuario_repo.py:101-125 | The same on the rows: over a fixed table all matching rows and no others, newest first |
| `Paginacion.SoloLasQueCasan` | src/app/infrastructure/persistence/repositorios/auth/usuario_repo.py:95-113 | Over a changing table every listed row matched and was there when its page was read |
| `Paginacion.SinRepetidos` | src/app/infrastructure/persistence/repositorios/auth/usuario_repo.py:101-125 | Whatever rows come and go between pages, no row is listed twice and the order holds across pages |
| `Paginacion.SinPerdidas` | src/app/infrastructure/persistence/repositorios/movilidad/traslado_repo.py:81-97 | Whatever rows come and go and whatever other columns change between pages, a row that is there and matches throughout is listed |
| `Paginacion.NumeroDePaginas` | src/app/infrastructure/persistence/repositorios/movilidad/radicacion_repo.py:84-100 | Over N rows the walk takes max(1, ceil(N / n)) pages |
| `Paginacion.RecorridoTermina` | src/app/infrastructure/persistence/repositorios/movilidad/novedad_repo.py:75-91 | Over a fixed table the cursors end: k full pages with a next cursor mean more than k * n rows |
| `Paginacion.PaginaBien` | src/app/infrastructure/persistence/repositorios/auth/usuario_repo.py:113-125 | One page: at most n visible rows in order, every visible row it leaves out lies after its cursor, and there is a cursor exactly when something does |
| `Paginacion.PaginaEnClaro` | src/app/infrastructure/persistence/repositorios/auth/usuario_repo.py:101-119 | The page on the rows: newest first and then the greater identifier, only matching rows older than the cursor, as many as fit, none left out that is newer than its last, and a next cursor exactly when some are left |
| `Paginacion.ListarUsuarios` | src/app/infrastructure/persistence/repositorios/auth/usuario_repo.py:101-125 | The n + 1 read with its trim returns that page; a cursor that does not decode is an error |
| `Paginacion.ListarAuditoria` | src/app/infrastructure/persistence/repositorios/auth/auditoria_repo.py:125-155 | The same page with the cursor-independent total; a cursor that does not decode is ignored |
| `Paginacion.Consultar` | src/app/infrastructure/persistence/repositorios/auth/usuario_repo.py:113-118 | The ordered, limited query returns the first rows of the whole ordered listing |
| `Limitador.CotaDelLimitador` | src/app/api/v1/middlewares/rate_limiter.py:26-41 | Over every arrival sequence any half-open interval of one window's length admits at most 2 * times - 1 requests of a key, at most `times` if a window is a single tick, and none if `times` is not positive |
| `Limitador.CotaDeVentana` | src/app/api/v1/middlewares/rate_limiter.py:31-41 | Each window admits at most `times` requests, and the running one exactly as many as its counter says, up to that number |
| `Limitador.CotaAlcanzada` | src/app/api/v1/middlewares/rate_limiter.py:26-41 | That bound is attained for every key, every `times` and every window length |
| `Limitador.RechazoMerecido` | src/app/api/v1/middlewares/rate_limiter.py:37-41 | A refused request was preceded by `times` admitted ones of its key within one window's length |
| `Limitador.AsyncRateLimiter.Llamar` | src/app/api/v1/middlewares/rate_limiter.py:26-41 | One call leaves the counters as one more arrival does and admits it accordingly |
| `Ventanas.CotaDelIntervalo` | src/app/infrastructure/cache/redis_service.py:49-57 | The interval bound for any counter whose deadline is fixed by its first count |
| `Bloqueo.RespuestasSii` | src/app/application/use_cases/auth/usuarios/autenticar_usuario.py:45-76 | What each attempt of every run is told: in only with the right password of an active account without a live lockout; the same refusal for a wrong one and an unknown e-mail; and each state of the account its own |
| `Bloqueo.EstadosSii` | src/app/application/use_cases/auth/usuarios/autenticar_usuario.py:48-94 | and what it leaves: a success clears the counter, a failure counts in its life or in a new one and locks at the maximum, the rest changes nothing |
| `Bloqueo.CotaDeFallos` | src/app/application/use_cases/auth/usuarios/autenticar_usuario.py:45-94 | From any point of any serial run, while no login of the e-mail succeeds, an interval of one lockout length holds at most 2 * MAX - 2 counted failures, or MAX if MAX is 1 or the lockout lasts a single tick; so never more than 2 * MAX - 1 |
| `Bloqueo.CotaAlcanzada` | src/app/application/use_cases/auth/usuarios/autenticar_usuario.py:89-94 | That bound is attained for every e-mail and every valid policy |
| `Bloqueo.ContadorBajoElMaximo` | src/app/application/use_cases/auth/usuarios/autenticar_usuario.py:89-93 | A live counter is always at least one and below the maximum |
| `Bloqueo.BloqueoDura` | src/app/application/use_cases/auth/usuarios/autenticar_usuario.py:48-52 | For a whole lockout length after it is set every attempt of the e-mail is refused as blocked, the right password included, and told the seconds left |
| `Bloqueo.BloqueoMerecido` | src/app/application/use_cases/auth/usuarios/autenticar_usuario.py:89-93 | In every run an attempt that sets a lockout is the last of at least MAX failures of its e-mail counted within one lockout length |
| `Bloqueo.OtrosNoCuentan` | src/app/application/use_cases/auth/usuarios/autenticar_usuario.py:48-93 | Dropping from any run all attempts of other e-mails leaves the counter and the lockout of this one unchanged |
| `Bloqueo.MismasRespuestas` | src/app/application/use_cases/auth/usuarios/autenticar_usuario.py:48-76 | and every answer to it |
| `Bloqueo.AutenticarUsuario.Autenticar` | src/app/application/use_cases/auth/usuarios/autenticar_usuario.py:45-76 | One attempt answers and leaves the stores as its step says; the stored hash is asked for only for an active account with no live lockout, and under a lockout nothing changes |
| `Bloqueo.AutenticarUsuario.RegistrarIntentoFallido` | src/app/application/use_cases/auth/usuarios/autenticar_usuario.py:89-94 | Count, and at the maximum lock and clear |
| `Permisos.AntiguedadAcotada` | src/app/dependencies.py:124-140 | In every run over any number of workers the permissions used equal the database's at some moment less than LOCAL + REDIS ttl ago |
| `Permisos.AntiguedadAlcanzada` | src/app/dependencies.py:124-140 | That bound is attained in every configuration: a run uses permissions that the database last held LOCAL + REDIS ttl - 1 ticks ago |
| `Permisos.InvalidacionSurteEfecto` | src/app/application/use_cases/auth/roles/revocar_rol_de_usuario.py:22-23 | More than LOCAL ttl after a user's key is deleted, no worker uses permissions older than the deletion |
| `Permisos.CambioSurteEfecto` | src/app/application/use_cases/auth/roles/revocar_rol_de_usuario.py:22-23 | The deletion comes before the commit: if no lookup between the two refills Redis, that is, finds nothing to serve in its worker's map and in Redis and something in the database, no worker uses permissions older than the change once LOCAL ttl has passed since the deletion |
| `Permisos.ReponerImpide` | src/app/dependencies.py:128-139 | The converse: if one does, the key is not deleted again and the database never holds the old set again, then for a whole REDIS ttl after it no worker without an entry of its own uses the change |
| `Permisos.CambioSurteEfectoSii` | src/app/dependencies.py:128-139 | Both together: between LOCAL and REDIS ttl after the last deletion such a worker uses the change if and only if no lookup between deletion and commit refilled |
| `Permisos.ConsultaEntreMedias` | src/app/dependencies.py:128-140 | A refilling lookup undoes the deletion: until a whole REDIS ttl after it every worker without an entry of its own uses what the database held then, whatever was committed since |
| `Permisos.CasoPosible` | src/app/dependencies.py:128-140 | Such a run is there for every configuration, users and permissions, with any delay below the Redis ttl after the commit |
| `Permisos.LocalesAcotados` | src/app/dependencies.py:48-52 | No worker's local map ever exceeds its maximum |
| `Permisos.SiempreExplicado` | src/app/dependencies.py:37-52 | Every local and Redis entry is what the database held at an accountable moment, not before the last deletion of its key that it must reflect |
| `Permisos.ConsultaEnClaro` | src/app/dependencies.py:37-45 | What a lookup answers and leaves in Redis, spelled on the entries |
| `Permisos.ConsultaGuardaLocal` | src/app/dependencies.py:37-52 | and in the worker's map |
| `Permisos.DesalojaLaMasVieja` | src/app/dependencies.py:48-52 | In every run what a lookup pushes out for another user is an oldest entry of a full map |
| `Permisos.Trabajador.PermisosDe` | src/app/dependencies.py:124-140 | The lookup in three levels answers and fills the caches as its step says |
| `Permisos.Trabajador.MasAntigua` | src/app/dependencies.py:50 | The loop finds an oldest entry |
| `Permisos.Trabajador.PermLocalGet` | src/app/dependencies.py:37-45 | An entry serves while its age is at most the ttl and is dropped after |
| `Permisos.Trabajador.PermLocalSet` | src/app/dependencies.py:48-52 | A full map gives up an oldest entry first |
| `Redis.EjecutarIncr` | src/app/infrastructure/cache/redis_service.py:49-57 | The counter is created with its deadline only when absent or dead, then incremented keeping the deadline |
| `Redis.EjecutarSadd` | src/app/infrastructure/cache/redis_service.py:59-64 | The set grows; with a lifetime its deadline starts again, without one a living key keeps what it has and a new key has none |
| `Redis.RedisService.SetNx` | src/app/infrastructure/cache/redis_service.py:69-71 | Succeeds exactly when the key is not alive, and only then writes |

## Left out

- Disparadores.PlazoSiiAprobado: the holiday table is the same throughout a run, because nothing in the application writes it; NOW() and the application's clock give the same instant within a request.
- Disparadores.SiempreUnoAbierto: process identifiers are fresh across both tables, as UUIDs are; the trigger's comparison of an enum column with text labels is read as comparing labels.
- Inventario.LogSiempreEncadenado: needs the strictly increasing clock, because the query orders by `creado_en` alone; concurrent movements of one item are not interleaved.
- Procesos.Recortar: strips space, tab, line feed and carriage return only.
- Idempotency: requests that the middleware lets through untouched (methods, content types and paths it skips, a missing key, the key derivation before line 69) and Redis failures. A request cancelled while a cache access is under way counts as cancelled before it or after it.
- Inventory: SHA-256 is any collision-free function with non-empty hexadecimal results, timestamps are written unambiguously, and identifiers hold no `|` and are fresh; the `modulo` column is constant here; ranges and catalogue edits.
- Pagination: a cursor is the pair it encodes and a filter is any predicate on rows; the account, NUNC, inspection and vehicle lists repeat the pattern.
- Permissions: a lookup is one step, so a change committed between its read of the database and its write to Redis is not interleaved; the cached user profile.
- Login: attempts are serial and the e-mail comes normalised; constant-time answers, sleeps, and what a successful login does after clearing the counter.
- Rate limiter: the key already stands for address, path and limits.
- Account lifecycle: requests are serial; two concurrent creations that both pass the guards are not interleaved.
- The columns that record who acted, the version, the organisation and the public identifiers; a `proceso_tipo` other than the two kinds, which is refused before anything is read.
- `iniciar_revision` of a novedad, account creation, `esta_vencido`, organisms, carriers and the history of actions: one branch each and no invariant of their own.
- Row-level security, isolation levels, advisory locks, sequence and code generators, and the search trigger.
- Routers, schemas, PDF, e-mail, logging, metrics, dashboards, inspections, vehicles, shift closings, API keys, role editing and the verification endpoint of the audit chain.
