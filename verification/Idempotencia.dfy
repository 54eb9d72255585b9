/** The idempotency protocol of `idempotency.py`.

    `dispatch` reads the cache, claims the key with SET NX, runs the handler, and writes or deletes the key.
    Each of these is one atomic step on the shared cache and any steps of other requests may fall between
    them. A cache entry does not say which request wrote it. */
module Idempotencia {
  import opened Opciones
  import opened Redis

  /** Durations, and the size limit of a cached body (IDEMPOTENCY_MAX_BODY_CACHE_KB * 1024). */
  datatype Config = Config(ttlExplicito: nat, ttlAutomatico: nat, ttlVuelo: nat, maxBytes: nat)

  predicate ConfigValida(cfg: Config) {
    cfg.ttlExplicito > 0 && cfg.ttlAutomatico > 0 && cfg.ttlVuelo > 0
  }

  /** A body as it comes out of the iterator, and the JSON value it parses to, if any. */
  datatype Cuerpo = Cuerpo(trozos: seq<string>, json: Opcion<string>)

  /** How the handler ends. A response without a body is one whose iterator fails while it is read. A request that
      is cancelled, in the handler or while its outcome is being cached, ends in an exception that is no `Exception`:
      no clause catches it. */
  datatype Desenlace = Excepcion | Cancelada | Respuesta(status: int, cuerpo: Opcion<Cuerpo>)

  datatype Valor = EnVuelo | Guardado(status: int, body: Opcion<string>, bodyHash: string)

  /** What a request that did not run the handler is told. */
  datatype Aviso = Conflicto409 | Distinto422 | Repetida(status: int, body: Opcion<string>)

  /** Where a request stands. Between winning the key and its last cache access it remembers when it won. */
  datatype Punto =
    | PorLeer
    | PorReclamar
    | Ejecutando(desde: nat)
    | PorEscribir(desde: nat, desenlace: Desenlace)
    | Ejecutada(desde: nat, desenlace: Desenlace)
    | Contestada(aviso: Aviso)

  datatype Solicitud = Solicitud(clave: string, bodyHash: string, explicita: bool, punto: Punto)

  predicate EnSeccion(s: Solicitud) {
    s.punto.Ejecutando? || s.punto.PorEscribir?
  }

  function Ttl(s: Solicitud, cfg: Config): nat {
    if s.explicita then cfg.ttlExplicito else cfg.ttlAutomatico
  }

  function Juntar(trozos: seq<string>): string {
    if trozos == [] then "" else Juntar(trozos[..|trozos| - 1]) + trozos[|trozos| - 1]
  }

  // ---------------------------------------------------------------- one request, step by step

  function TrasLeer(s: Solicitud, cache: Almacen<Valor>, ahora: nat): Punto {
    var leido: Opcion<Valor> := Leer(cache, s.clave, ahora);
    match leido
    case Nada => PorReclamar
    case Algo(EnVuelo) => Contestada(Conflicto409)
    case Algo(Guardado(status, body, h)) =>
      if s.explicita && h != "" && h != s.bodyHash then Contestada(Distinto422)
      else Contestada(Repetida(status, body))
  }

  function TrasReclamar(s: Solicitud, cache: Almacen<Valor>, ahora: nat): Punto {
    if Vive(cache, s.clave, ahora) then Contestada(Conflicto409) else Ejecutando(ahora)
  }

  /** The value a successful outcome leaves in the cache, if it leaves one. */
  function Cacheable(d: Desenlace, bodyHash: string, cfg: Config): Opcion<Valor> {
    if !d.Respuesta? || !(200 <= d.status < 300) then Nada
    else if d.status == 204 then Algo(Guardado(204, Nada, bodyHash))
    else match d.cuerpo
      case Nada => Nada
      case Algo(c) =>
        if |Juntar(c.trozos)| <= cfg.maxBytes && c.json.Algo? then Algo(Guardado(d.status, c.json, bodyHash)) else Nada
  }

  /** A cancelled request, and a 2xx whose body is over the limit or cannot be read to its end, leave the in-flight
      entry where it is. */
  predicate DejaCandado(d: Desenlace, cfg: Config) {
    || d.Cancelada?
    || (&& d.Respuesta? && 200 <= d.status < 300 && d.status != 204
        && (d.cuerpo.Algo? ==> |Juntar(d.cuerpo.valor.trozos)| > cfg.maxBytes))
  }

  function TrasEscribir(cache: Almacen<Valor>, s: Solicitud, d: Desenlace, cfg: Config, ahora: nat): Almacen<Valor> {
    match Cacheable(d, s.bodyHash, cfg)
    case Algo(v) => TrasSet(cache, s.clave, v, Ttl(s, cfg), ahora)
    case Nada => if DejaCandado(d, cfg) then cache else TrasDelete(cache, s.clave)
  }

  /** One run of `dispatch` over the shared cache; each method is what happens between two awaits. */
  class Despacho {
    const cache: RedisService<Valor>
    const cfg: Config
    var s: Solicitud

    constructor (cache: RedisService<Valor>, cfg: Config, clave: string, bodyHash: string, explicita: bool)
      requires ConfigValida(cfg)
      ensures this.cache == cache && this.cfg == cfg && s == Solicitud(clave, bodyHash, explicita, PorLeer)
    {
      this.cache := cache;
      this.cfg := cfg;
      s := Solicitud(clave, bodyHash, explicita, PorLeer);
    }

    method VerificarCache()
      requires s.punto.PorLeer?
      modifies this
      ensures s == old(s).(punto := TrasLeer(old(s), cache.datos, cache.ahora))
    {
      var guardado := cache.Get(s.clave);
      if guardado.Nada? {
        s := s.(punto := PorReclamar);
        return;
      }
      var data := guardado.valor;
      if data.EnVuelo? {
        s := s.(punto := Contestada(Conflicto409));
      } else if s.explicita && data.bodyHash != "" && data.bodyHash != s.bodyHash {
        s := s.(punto := Contestada(Distinto422));
      } else {
        s := s.(punto := Contestada(Repetida(data.status, data.body)));
      }
    }

    method AdquirirCandado()
      requires s.punto.PorReclamar? && ConfigValida(cfg)
      modifies this, cache
      ensures cache.datos == TrasSetNx(old(cache.datos), s.clave, EnVuelo, cfg.ttlVuelo, cache.ahora)
      ensures cache.ahora == old(cache.ahora)
      ensures s == old(s).(punto := TrasReclamar(old(s), old(cache.datos), cache.ahora))
    {
      var adquirido := cache.SetNx(s.clave, EnVuelo, cfg.ttlVuelo);
      if adquirido {
        s := s.(punto := Ejecutando(cache.ahora));
      } else {
        s := s.(punto := Contestada(Conflicto409));
      }
    }

    method HandlerTermina(d: Desenlace)
      requires s.punto.Ejecutando?
      modifies this
      ensures s == old(s).(punto := PorEscribir(old(s).punto.desde, d))
    {
      s := s.(punto := PorEscribir(s.punto.desde, d));
    }

    /** The body iterator, drained chunk by chunk. */
    method LeerCuerpo(trozos: seq<string>) returns (cuerpo: string)
      ensures cuerpo == Juntar(trozos)
    {
      cuerpo := "";
      for i := 0 to |trozos|
        invariant cuerpo == Juntar(trozos[..i])
      {
        assert trozos[..i + 1][..i] == trozos[..i];
        cuerpo := cuerpo + trozos[i];
      }
      assert trozos[..|trozos|] == trozos;
    }

    method EscribirCache()
      requires s.punto.PorEscribir? && ConfigValida(cfg)
      modifies this, cache
      ensures cache.datos == TrasEscribir(old(cache.datos), old(s), old(s).punto.desenlace, cfg, cache.ahora)
      ensures cache.ahora == old(cache.ahora)
      ensures s == old(s).(punto := Ejecutada(old(s).punto.desde, old(s).punto.desenlace))
    {
      var d := s.punto.desenlace;
      var ttl := Ttl(s, cfg);
      if d.Excepcion? {
        cache.Delete(s.clave);
      } else if d.Respuesta? && 200 <= d.status < 300 {
        if d.status == 204 {
          cache.Set(s.clave, Guardado(204, Nada, s.bodyHash), ttl);
        } else if d.cuerpo.Algo? {
          var cuerpo := LeerCuerpo(d.cuerpo.valor.trozos);
          if |cuerpo| <= cfg.maxBytes {
            if d.cuerpo.valor.json.Algo? {
              cache.Set(s.clave, Guardado(d.status, d.cuerpo.valor.json, s.bodyHash), ttl);
            } else {
              cache.Delete(s.clave);
            }
          }
        }
      } else if d.Respuesta? {
        cache.Delete(s.clave);
      }
      s := s.(punto := Ejecutada(s.punto.desde, d));
    }
  }

  // ---------------------------------------------------------------- what each access does

  /** The body is what its chunks are, one after another. */
  lemma {:induction false} JuntarUne(a: seq<string>, b: seq<string>, t: string)
    ensures Juntar([]) == "" && Juntar([t]) == t && Juntar(a + b) == Juntar(a) + Juntar(b)
  {
    assert [t][..0] == [] && "" + t == t;
    if b == [] {
      assert a + b == a && Juntar(a) + "" == Juntar(a);
    } else {
      var n := |b| - 1;
      JuntarUne(a, b[..n], t);
      assert (a + b)[..|a| + n] == a + b[..n];
      assert (Juntar(a) + Juntar(b[..n])) + b[n] == Juntar(a) + (Juntar(b[..n]) + b[n]);
    }
  }

  /** Every way a request can end, and what it leaves under its key. Every 2xx whose body is read, within the limit and
      JSON, and every 204, is stored for the lifetime of its mode, whatever its status; an exception, another status
      and a body that is not JSON free the key; a cancellation and a body over the limit or unreadable touch nothing. */
  lemma EscribirEnClaro(cache: Almacen<Valor>, q: Solicitud, d: Desenlace, cfg: Config, ahora: nat)
    ensures var c := TrasEscribir(cache, q, d, cfg, ahora);
      var exito := d.Respuesta? && 200 <= d.status <= 299;
      var leido := exito && d.status != 204 && d.cuerpo.Algo? && |Juntar(d.cuerpo.valor.trozos)| <= cfg.maxBytes;
      var guarda := (exito && d.status == 204) || (leido && d.cuerpo.valor.json.Algo?);
      var libera := d.Excepcion? || (d.Respuesta? && !exito) || (leido && d.cuerpo.valor.json.Nada?);
      && (guarda ==> c == cache[q.clave := Entrada(
            Guardado(d.status, if d.status == 204 then Nada else d.cuerpo.valor.json, q.bodyHash),
            ahora + (if q.explicita then cfg.ttlExplicito else cfg.ttlAutomatico), false)])
      && (libera ==> c == cache - {q.clave})
      && (!guarda && !libera ==> c == cache)
  {
  }

  /** What a request reads decides what it is told, and only a free key lets it go on. */
  lemma LeerEnClaro(q: Solicitud, cache: Almacen<Valor>, ahora: nat)
    ensures var p, k := TrasLeer(q, cache, ahora), q.clave;
      var vive := k in cache && (cache[k].fija || ahora < cache[k].expira);
      && (!vive <==> p == PorReclamar)
      && (vive && cache[k].valor == EnVuelo ==> p == Contestada(Conflicto409))
      && (vive && cache[k].valor.Guardado? ==>
          var v := cache[k].valor;
          p == Contestada(if q.explicita && v.bodyHash != "" && v.bodyHash != q.bodyHash then Distinto422
                          else Repetida(v.status, v.body)))
  {
  }

  // ---------------------------------------------------------------- all requests, interleaved

  datatype Sistema = Sistema(cache: Almacen<Valor>, sols: map<nat, Solicitud>, ahora: nat)

  datatype Accion =
    | Llega(id: nat, clave: string, bodyHash: string, explicita: bool)
    | Lee(id: nat)
    | Reclama(id: nat)
    | Termina(id: nat, desenlace: Desenlace)
    | Escribe(id: nat)
    | Pasa(ticks: nat)

  /** A body hash is a digest, so it is never empty. */
  predicate Posible(s: Sistema, a: Accion) {
    match a
    case Llega(id, _, bodyHash, _) => id !in s.sols && bodyHash != ""
    case Lee(id) => id in s.sols && s.sols[id].punto.PorLeer?
    case Reclama(id) => id in s.sols && s.sols[id].punto.PorReclamar?
    case Termina(id, _) => id in s.sols && s.sols[id].punto.Ejecutando?
    case Escribe(id) => id in s.sols && s.sols[id].punto.PorEscribir?
    case Pasa(_) => true
  }

  function Mover(s: Sistema, id: nat, p: Punto): map<nat, Solicitud>
    requires id in s.sols
  {
    s.sols[id := s.sols[id].(punto := p)]
  }

  function Aplicar(s: Sistema, a: Accion, cfg: Config): Sistema
    requires Posible(s, a)
  {
    match a
    case Llega(id, clave, bodyHash, explicita) =>
      s.(sols := s.sols[id := Solicitud(clave, bodyHash, explicita, PorLeer)])
    case Lee(id) => s.(sols := Mover(s, id, TrasLeer(s.sols[id], s.cache, s.ahora)))
    case Reclama(id) =>
      Sistema(TrasSetNx(s.cache, s.sols[id].clave, EnVuelo, cfg.ttlVuelo, s.ahora),
              Mover(s, id, TrasReclamar(s.sols[id], s.cache, s.ahora)), s.ahora)
    case Termina(id, d) => s.(sols := Mover(s, id, PorEscribir(s.sols[id].punto.desde, d)))
    case Escribe(id) =>
      var q := s.sols[id];
      Sistema(TrasEscribir(s.cache, q, q.punto.desenlace, cfg, s.ahora),
              Mover(s, id, Ejecutada(q.punto.desde, q.punto.desenlace)), s.ahora)
    case Pasa(ticks) => s.(ahora := s.ahora + ticks)
  }

  /** A run: any interleaving of any number of requests, from an empty cache. */
  predicate Corrida(ss: seq<Sistema>, acs: seq<Accion>, cfg: Config) {
    && |ss| == |acs| + 1
    && ss[0].cache == map[] && ss[0].sols == map[]
    && forall i :: 0 <= i < |acs| ==> Posible(ss[i], acs[i]) && ss[i + 1] == Aplicar(ss[i], acs[i], cfg)
  }

  predicate EnSeccionDe(q: Solicitud, k: string) {
    q.clave == k && EnSeccion(q)
  }

  /** No holder of the key has held it for its whole in-flight time. */
  predicate Puntual(s: Sistema, k: string, cfg: Config) {
    forall id :: id in s.sols && EnSeccionDe(s.sols[id], k) ==>
      s.ahora < s.sols[id].punto.desde + cfg.ttlVuelo
  }

  predicate SiemprePuntual(ss: seq<Sistema>, k: string, cfg: Config) {
    forall i :: 0 <= i < |ss| ==> Puntual(ss[i], k, cfg)
  }

  // ---------------------------------------------------------------- mutual exclusion

  predicate Exclusion(s: Sistema, k: string) {
    forall i, j :: i in s.sols && j in s.sols && EnSeccionDe(s.sols[i], k) && EnSeccionDe(s.sols[j], k) ==> i == j
  }

  /** Whoever is in the section of the key finds its own entry in the cache. */
  predicate Candado(s: Sistema, k: string, cfg: Config) {
    forall id :: id in s.sols && EnSeccionDe(s.sols[id], k) ==>
      k in s.cache && s.cache[k] == Entrada(EnVuelo, s.sols[id].punto.desde + cfg.ttlVuelo)
  }

  /** Whatever the requests of other keys do, late or not, a step keeps both for this one. */
  lemma PasoExcluye(s: Sistema, a: Accion, k: string, cfg: Config)
    requires Posible(s, a) && Exclusion(s, k) && Candado(s, k, cfg) && Puntual(s, k, cfg)
    ensures Exclusion(Aplicar(s, a, cfg), k) && Candado(Aplicar(s, a, cfg), k, cfg)
  {
    match a {
      case Llega(_, _, _, _) =>
      case Lee(id) =>
      case Reclama(id) => ReclamaExcluye(s, id, k, cfg);
      case Termina(id, _) =>
      case Escribe(id) => EscribeExcluye(s, id, k, cfg);
      case Pasa(_) =>
    }
  }

  lemma ReclamaExcluye(s: Sistema, id: nat, k: string, cfg: Config)
    requires Posible(s, Reclama(id)) && Exclusion(s, k) && Candado(s, k, cfg) && Puntual(s, k, cfg)
    ensures Exclusion(Aplicar(s, Reclama(id), cfg), k) && Candado(Aplicar(s, Reclama(id), cfg), k, cfg)
  {
  }

  lemma EscribeExcluye(s: Sistema, id: nat, k: string, cfg: Config)
    requires Posible(s, Escribe(id)) && Exclusion(s, k) && Candado(s, k, cfg)
    ensures Exclusion(Aplicar(s, Escribe(id), cfg), k) && Candado(Aplicar(s, Escribe(id), cfg), k, cfg)
  {
  }

  lemma {:induction false} InvarianteDeCorrida(ss: seq<Sistema>, acs: seq<Accion>, k: string, cfg: Config, i: nat)
    requires Corrida(ss, acs, cfg) && SiemprePuntual(ss, k, cfg) && i < |ss|
    ensures Exclusion(ss[i], k) && Candado(ss[i], k, cfg)
  {
    if i > 0 {
      InvarianteDeCorrida(ss, acs, k, cfg, i - 1);
      assert Puntual(ss[i - 1], k, cfg);
      PasoExcluye(ss[i - 1], acs[i - 1], k, cfg);
    }
  }

  /** In every run in which no holder of a key overstays the in-flight time, no two requests of that key are ever
      between winning it and their last cache access. */
  lemma ExclusionMutua(ss: seq<Sistema>, acs: seq<Accion>, k: string, cfg: Config)
    requires Corrida(ss, acs, cfg) && SiemprePuntual(ss, k, cfg)
    ensures forall i :: 0 <= i < |ss| ==> Exclusion(ss[i], k)
    ensures forall i, a, b :: 0 <= i < |ss| && a in ss[i].sols && b in ss[i].sols && a != b ==>
      var q, r := ss[i].sols[a], ss[i].sols[b];
      q.clave == k && r.clave == k && (q.punto.Ejecutando? || q.punto.PorEscribir?) ==>
        !r.punto.Ejecutando? && !r.punto.PorEscribir?
  {
    forall i | 0 <= i < |ss| ensures Exclusion(ss[i], k) {
      InvarianteDeCorrida(ss, acs, k, cfg, i);
    }
  }

  lemma Prolongar(ss: seq<Sistema>, acs: seq<Accion>, a: Accion, k: string, cfg: Config)
    returns (ss': seq<Sistema>, acs': seq<Accion>)
    requires Corrida(ss, acs, cfg) && Posible(ss[|acs|], a)
    ensures Corrida(ss', acs', cfg) && acs' == acs + [a] && ss' == ss + [Aplicar(ss[|acs|], a, cfg)]
    ensures SiemprePuntual(ss, k, cfg) && Puntual(Aplicar(ss[|acs|], a, cfg), k, cfg) ==> SiemprePuntual(ss', k, cfg)
  {
    ss', acs' := ss + [Aplicar(ss[|acs|], a, cfg)], acs + [a];
  }

  lemma LlegaYReclama(ss: seq<Sistema>, acs: seq<Accion>, id: nat, k: string, h: string, cfg: Config)
    returns (ss': seq<Sistema>, acs': seq<Accion>)
    requires Corrida(ss, acs, cfg) && h != ""
    requires id !in ss[|acs|].sols && !Vive(ss[|acs|].cache, k, ss[|acs|].ahora)
    ensures Corrida(ss', acs', cfg) && acs' == acs + [Llega(id, k, h, true), Lee(id), Reclama(id)]
    ensures cfg.ttlVuelo > 0 && SiemprePuntual(ss, k, cfg) ==> SiemprePuntual(ss', k, cfg)
    ensures var s, s' := ss[|acs|], ss'[|acs'|];
      && s'.sols == s.sols[id := Solicitud(k, h, true, Ejecutando(s.ahora))]
      && s'.cache == s.cache[k := Entrada(EnVuelo, s.ahora + cfg.ttlVuelo)] && s'.ahora == s.ahora
  {
    var s := ss[|acs|];
    assert SiemprePuntual(ss, k, cfg) ==> Puntual(s, k, cfg);
    ss', acs' := Prolongar(ss, acs, Llega(id, k, h, true), k, cfg);
    ss', acs' := Prolongar(ss', acs', Lee(id), k, cfg);
    ss', acs' := Prolongar(ss', acs', Reclama(id), k, cfg);
    assert ss'[|acs'|].sols == s.sols[id := Solicitud(k, h, true, Ejecutando(s.ahora))];
  }

  /** The timing condition is needed: for every key a holder that overstays meets a second one. */
  lemma SinPuntualidadSeSolapan(k: string, cfg: Config)
    ensures exists ss: seq<Sistema>, acs: seq<Accion> :: Corrida(ss, acs, cfg) && !Exclusion(ss[|acs|], k)
  {
    var ss, acs := LlegaYReclama([Sistema(map[], map[], 0)], [], 0, k, "h", cfg);
    ss, acs := Prolongar(ss, acs, Pasa(cfg.ttlVuelo), k, cfg);
    ss, acs := LlegaYReclama(ss, acs, 1, k, "h", cfg);
    var sols := ss[|acs|].sols;
    assert EnSeccionDe(sols[0], k) && EnSeccionDe(sols[1], k);
    assert !Exclusion(ss[|acs|], k);
  }

  // ---------------------------------------------------------------- where entries and answers come from

  /** Request `q` ran the handler and its outcome is what `status`, `body` and `h` say. */
  predicate EsOrigen(q: Solicitud, clave: string, status: int, body: Opcion<string>, h: string) {
    && q.clave == clave && q.bodyHash == h && q.punto.Ejecutada?
    && q.punto.desenlace.Respuesta? && q.punto.desenlace.status == status && 200 <= status < 300
    && (if status == 204 then body == Nada
        else body.Algo? && q.punto.desenlace.cuerpo.Algo? && q.punto.desenlace.cuerpo.valor.json == body)
  }

  predicate ConOrigen(sols: map<nat, Solicitud>, clave: string, status: int, body: Opcion<string>, h: string) {
    exists id :: id in sols && EsOrigen(sols[id], clave, status, body, h)
  }

  /** A replayed answer comes from a request of the same key, and of the same body in explicit mode. */
  predicate RespuestaConOrigen(sols: map<nat, Solicitud>, q: Solicitud) {
    q.punto.Contestada? && q.punto.aviso.Repetida? ==>
      exists id :: id in sols && EsOrigen(sols[id], q.clave, q.punto.aviso.status, q.punto.aviso.body,
                                          sols[id].bodyHash)
                   && (q.explicita ==> sols[id].bodyHash == q.bodyHash)
  }

  predicate Procedencia(s: Sistema) {
    && (forall id :: id in s.sols ==> s.sols[id].bodyHash != "")
    && (forall k :: k in s.cache && s.cache[k].valor.Guardado? ==>
          var v := s.cache[k].valor; ConOrigen(s.sols, k, v.status, v.body, v.bodyHash))
    && (forall id :: id in s.sols ==> RespuestaConOrigen(s.sols, s.sols[id]))
  }

  lemma PasoConservaProcedencia(s: Sistema, a: Accion, cfg: Config)
    requires Posible(s, a) && Procedencia(s)
    ensures Procedencia(Aplicar(s, a, cfg))
  {
    var s' := Aplicar(s, a, cfg);
    ProcedenciaDelCache(s, a, cfg);
    ProcedenciaDeRespuestas(s, a, cfg);
  }

  /** Requests that already ran stay as they are. */
  lemma OrigenesQuedan(s: Sistema, a: Accion, cfg: Config)
    requires Posible(s, a)
    ensures forall id :: id in s.sols && s.sols[id].punto.Ejecutada? ==>
      id in Aplicar(s, a, cfg).sols && Aplicar(s, a, cfg).sols[id] == s.sols[id]
  {
  }

  lemma ProcedenciaDelCache(s: Sistema, a: Accion, cfg: Config)
    requires Posible(s, a) && Procedencia(s)
    ensures var s' := Aplicar(s, a, cfg);
      forall k :: k in s'.cache && s'.cache[k].valor.Guardado? ==>
        var v := s'.cache[k].valor; ConOrigen(s'.sols, k, v.status, v.body, v.bodyHash)
  {
    var s' := Aplicar(s, a, cfg);
    OrigenesQuedan(s, a, cfg);
    forall k | k in s'.cache && s'.cache[k].valor.Guardado?
      ensures var v := s'.cache[k].valor; ConOrigen(s'.sols, k, v.status, v.body, v.bodyHash)
    {
      var v := s'.cache[k].valor;
      if k in s.cache && s.cache[k] == s'.cache[k] {
        var id :| id in s.sols && EsOrigen(s.sols[id], k, v.status, v.body, v.bodyHash);
        assert s'.sols[id] == s.sols[id];
      } else {
        assert EsOrigen(s'.sols[a.id], k, v.status, v.body, v.bodyHash);
      }
    }
  }

  lemma ProcedenciaDeRespuestas(s: Sistema, a: Accion, cfg: Config)
    requires Posible(s, a) && Procedencia(s)
    ensures var sols := Aplicar(s, a, cfg).sols; forall id :: id in sols ==> RespuestaConOrigen(sols, sols[id])
  {
    var s' := Aplicar(s, a, cfg);
    OrigenesQuedan(s, a, cfg);
    forall id | id in s'.sols && s'.sols[id].punto.Contestada? && s'.sols[id].punto.aviso.Repetida?
      ensures RespuestaConOrigen(s'.sols, s'.sols[id])
    {
      var q := s'.sols[id];
      if id in s.sols && s.sols[id] == q {
        assert RespuestaConOrigen(s.sols, q);
        var o :| o in s.sols && EsOrigen(s.sols[o], q.clave, q.punto.aviso.status, q.punto.aviso.body,
                                         s.sols[o].bodyHash)
                 && (q.explicita ==> s.sols[o].bodyHash == q.bodyHash);
        assert s'.sols[o] == s.sols[o];
      } else {
        assert a == Lee(id);
        var v := s.cache[q.clave].valor;
        var o :| o in s.sols && EsOrigen(s.sols[o], q.clave, v.status, v.body, v.bodyHash);
        assert s'.sols[o] == s.sols[o];
      }
    }
  }

  /** With no assumption about time at all: every replayed status and body was really produced by a request
      of the same key that ran the handler, and in explicit mode by one with the same body. */
  lemma {:induction false} RespuestasAutenticas(ss: seq<Sistema>, acs: seq<Accion>, cfg: Config, i: nat)
    requires Corrida(ss, acs, cfg) && i < |ss|
    ensures Procedencia(ss[i])
  {
    if i > 0 {
      RespuestasAutenticas(ss, acs, cfg, i - 1);
      PasoConservaProcedencia(ss[i - 1], acs[i - 1], cfg);
    }
  }

  // ---------------------------------------------------------------- a cached result is final

  predicate ResultadoVivo(s: Sistema, clave: string) {
    Vive(s.cache, clave, s.ahora) && s.cache[clave].valor.Guardado?
  }

  /** No handler of the key is running. */
  predicate NadieEjecuta(s: Sistema, clave: string) {
    forall id :: id in s.sols && EnSeccion(s.sols[id]) ==> s.sols[id].clave != clave
  }

  lemma ResultadoExcluye(s: Sistema, clave: string, cfg: Config)
    requires Candado(s, clave, cfg) && ResultadoVivo(s, clave)
    ensures NadieEjecuta(s, clave)
  {
  }

  lemma PasoConservaResultado(s: Sistema, a: Accion, clave: string, cfg: Config)
    requires Posible(s, a) && Candado(s, clave, cfg) && ResultadoVivo(s, clave)
    ensures NadieEjecuta(s, clave)
    ensures clave in Aplicar(s, a, cfg).cache && Aplicar(s, a, cfg).cache[clave] == s.cache[clave]
    ensures s.ahora <= Aplicar(s, a, cfg).ahora
  {
  }

  lemma {:induction false} RelojAvanza(ss: seq<Sistema>, acs: seq<Accion>, cfg: Config, i: nat, j: nat)
    requires Corrida(ss, acs, cfg) && i <= j < |ss|
    ensures ss[i].ahora <= ss[j].ahora
    decreases j
  {
    if i < j {
      RelojAvanza(ss, acs, cfg, i, j - 1);
      assert ss[j] == Aplicar(ss[j - 1], acs[j - 1], cfg);
    }
  }

  /** From the moment a result is in the cache until its deadline, the entry does not change and no handler
      of its key runs. */
  lemma {:induction false} ResultadoFinal(ss: seq<Sistema>, acs: seq<Accion>, cfg: Config, i: nat, j: nat,
                                          clave: string)
    requires Corrida(ss, acs, cfg) && SiemprePuntual(ss, clave, cfg) && i <= j < |ss|
    requires ResultadoVivo(ss[i], clave) && ss[j].ahora < ss[i].cache[clave].expira
    ensures ResultadoVivo(ss[j], clave) && ss[j].cache[clave] == ss[i].cache[clave]
    ensures NadieEjecuta(ss[j], clave)
    decreases j
  {
    InvarianteDeCorrida(ss, acs, clave, cfg, j);
    if i < j {
      RelojAvanza(ss, acs, cfg, j - 1, j);
      ResultadoFinal(ss, acs, cfg, i, j - 1, clave);
      InvarianteDeCorrida(ss, acs, clave, cfg, j - 1);
      PasoConservaResultado(ss[j - 1], acs[j - 1], clave, cfg);
    }
    ResultadoExcluye(ss[j], clave, cfg);
  }

  /** While a request of the key runs, every other one of it is told 409, at the read and at the claim alike. */
  lemma EnVueloContesta409(ss: seq<Sistema>, acs: seq<Accion>, cfg: Config, i: int, id: nat, otro: nat)
    requires Corrida(ss, acs, cfg) && 0 <= i < |acs| && (acs[i] == Lee(otro) || acs[i] == Reclama(otro))
    requires id in ss[i].sols && (ss[i].sols[id].punto.Ejecutando? || ss[i].sols[id].punto.PorEscribir?)
    requires otro in ss[i].sols && ss[i].sols[otro].clave == ss[i].sols[id].clave
    requires SiemprePuntual(ss, ss[i].sols[id].clave, cfg)
    ensures ss[i + 1].sols[otro].punto == Contestada(Conflicto409) && ss[i + 1].cache == ss[i].cache
  {
    var k := ss[i].sols[id].clave;
    InvarianteDeCorrida(ss, acs, k, cfg, i);
    assert Puntual(ss[i], k, cfg);
    assert ss[i + 1] == Aplicar(ss[i], acs[i], cfg);
  }

  /** A free key is won by whoever claims it: it runs, and its in-flight entry is there for the in-flight time. */
  lemma LibreSeGana(ss: seq<Sistema>, acs: seq<Accion>, cfg: Config, i: int, id: nat)
    requires Corrida(ss, acs, cfg) && 0 <= i < |acs| && acs[i] == Reclama(id) && Posible(ss[i], acs[i])
    requires var s, k := ss[i], ss[i].sols[id].clave;
      k !in s.cache || (!s.cache[k].fija && s.cache[k].expira <= s.ahora)
    ensures ss[i + 1].sols[id].punto == Ejecutando(ss[i].ahora)
    ensures ss[i + 1].cache
         == ss[i].cache[ss[i].sols[id].clave := Entrada(EnVuelo, ss[i].ahora + cfg.ttlVuelo, false)]
  {
    assert ss[i + 1] == Aplicar(ss[i], acs[i], cfg);
  }

  /** The lifetime of a result: of the explicit mode or of the automatic one. */
  function Duracion(q: Solicitud, cfg: Config): nat {
    if q.explicita then cfg.ttlExplicito else cfg.ttlAutomatico
  }

  /** The `i`-th step is the last access of request `id`, which ended in a 204, or in another 2xx with a body that was
      read, is within the limit and is JSON. */
  ghost predicate AciertaEn(ss: seq<Sistema>, acs: seq<Accion>, i: int, id: nat, cfg: Config)
    requires Corrida(ss, acs, cfg)
  {
    && 0 <= i < |acs| && acs[i] == Escribe(id) && id in ss[i].sols && ss[i].sols[id].punto.PorEscribir?
    && var d := ss[i].sols[id].punto.desenlace;
       && d.Respuesta? && 200 <= d.status <= 299
       && (d.status == 204 || (&& d.cuerpo.Algo? && d.cuerpo.valor.json.Algo?
                               && |Juntar(d.cuerpo.valor.trozos)| <= cfg.maxBytes))
  }

  lemma AciertaGuarda(ss: seq<Sistema>, acs: seq<Accion>, i: int, id: nat, cfg: Config)
    requires Corrida(ss, acs, cfg) && AciertaEn(ss, acs, i, id, cfg)
    ensures var q, d := ss[i].sols[id], ss[i].sols[id].punto.desenlace;
      ss[i + 1].ahora == ss[i].ahora && ss[i + 1].cache == ss[i].cache[q.clave := Entrada(
        Guardado(d.status, if d.status == 204 then Nada else d.cuerpo.valor.json, q.bodyHash),
        ss[i].ahora + Duracion(q, cfg), false)]
  {
    assert ss[i + 1] == Aplicar(ss[i], acs[i], cfg);
    EscribirEnClaro(ss[i].cache, ss[i].sols[id], ss[i].sols[id].punto.desenlace, cfg, ss[i].ahora);
  }

  /** Faithful replay: a request that reads the cache after request `id` ended in a success and before the lifetime of
      the result is over is told exactly the status and body of that success, or, in explicit mode with another body,
      that the key was used for something else. */
  lemma RepeticionFiel(ss: seq<Sistema>, acs: seq<Accion>, cfg: Config, i: int, j: int, id: nat, otro: nat)
    requires Corrida(ss, acs, cfg) && ConfigValida(cfg)
    requires AciertaEn(ss, acs, i, id, cfg) && SiemprePuntual(ss, ss[i].sols[id].clave, cfg)
    requires i < j < |acs| && acs[j] == Lee(otro)
    requires var q := ss[i].sols[id];
      Posible(ss[j], acs[j]) && ss[j].sols[otro].clave == q.clave && ss[j].ahora < ss[i].ahora + Duracion(q, cfg)
    ensures var q, d, r := ss[i].sols[id], ss[i].sols[id].punto.desenlace, ss[j].sols[otro];
      ss[j + 1].sols[otro].punto
        == if r.explicita && r.bodyHash != q.bodyHash then Contestada(Distinto422)
           else Contestada(Repetida(d.status, if d.status == 204 then Nada else d.cuerpo.valor.json))
  {
    var q := ss[i].sols[id];
    RespuestasAutenticas(ss, acs, cfg, i);
    AciertaGuarda(ss, acs, i, id, cfg);
    ResultadoFinal(ss, acs, cfg, i + 1, j, q.clave);
    assert ss[j + 1] == Aplicar(ss[j], acs[j], cfg);
  }

  /** At most one success: two successes of one key end at least one result lifetime apart. */
  lemma UnSoloExito(ss: seq<Sistema>, acs: seq<Accion>, cfg: Config, i: int, j: int, id: nat, otro: nat)
    requires Corrida(ss, acs, cfg) && ConfigValida(cfg)
    requires AciertaEn(ss, acs, i, id, cfg) && AciertaEn(ss, acs, j, otro, cfg) && i < j
    requires SiemprePuntual(ss, ss[i].sols[id].clave, cfg)
    requires ss[j].sols[otro].clave == ss[i].sols[id].clave
    ensures ss[i].ahora + Duracion(ss[i].sols[id], cfg) <= ss[j].ahora
  {
    var q := ss[i].sols[id];
    AciertaGuarda(ss, acs, i, id, cfg);
    assert EnSeccion(ss[j].sols[otro]);
    RelojAvanza(ss, acs, cfg, i + 1, j);
    if ss[j].ahora < ss[i].ahora + Duracion(q, cfg) {
      ResultadoFinal(ss, acs, cfg, i + 1, j, q.clave);
      assert false;
    }
  }

  // ---------------------------------------------------------------- successes that are not cached

  /** The step at `i` ends request `id` and leaves its in-flight entry: a cancellation, or a 2xx that is not cached. */
  predicate AbandonaEn(ss: seq<Sistema>, acs: seq<Accion>, i: int, id: nat, cfg: Config)
    requires Corrida(ss, acs, cfg)
  {
    && 0 <= i < |acs| && acs[i] == Escribe(id)
    && Posible(ss[i], acs[i]) && DejaCandado(ss[i].sols[id].punto.desenlace, cfg)
  }

  /** The key is locked until `fin` and nobody runs. */
  predicate Cerrada(s: Sistema, k: string, fin: nat) {
    k in s.cache && s.cache[k] == Entrada(EnVuelo, fin) && NadieEjecuta(s, k)
  }

  lemma PasoCerrada(s: Sistema, a: Accion, k: string, fin: nat, cfg: Config)
    requires Posible(s, a) && Cerrada(s, k, fin) && s.ahora < fin
    ensures Cerrada(Aplicar(s, a, cfg), k, fin)
  {
  }

  /** The entry such an end leaves keeps every handler of the key out until its in-flight time runs out, so nothing of
      the key succeeds again before then. */
  lemma {:induction false} AbandonoCierra(ss: seq<Sistema>, acs: seq<Accion>, cfg: Config, i: int, j: int, id: nat)
    requires Corrida(ss, acs, cfg) && AbandonaEn(ss, acs, i, id, cfg) && i < j < |ss|
    requires SiemprePuntual(ss, ss[i].sols[id].clave, cfg)
    requires ss[j].ahora < ss[i].sols[id].punto.desde + cfg.ttlVuelo
    ensures Cerrada(ss[j], ss[i].sols[id].clave, ss[i].sols[id].punto.desde + cfg.ttlVuelo)
    decreases j
  {
    var k, fin := ss[i].sols[id].clave, ss[i].sols[id].punto.desde + cfg.ttlVuelo;
    assert ss[j] == Aplicar(ss[j - 1], acs[j - 1], cfg);
    if j == i + 1 {
      InvarianteDeCorrida(ss, acs, k, cfg, i);
    } else {
      RelojAvanza(ss, acs, cfg, j - 1, j);
      AbandonoCierra(ss, acs, cfg, i, j - 1, id);
      PasoCerrada(ss[j - 1], acs[j - 1], k, fin, cfg);
    }
  }

  lemma RespondeYTermina(ss: seq<Sistema>, acs: seq<Accion>, id: nat, d: Desenlace, k: string, h: string, t: nat,
                         cfg: Config)
    returns (ss': seq<Sistema>, acs': seq<Accion>)
    requires Corrida(ss, acs, cfg) && SiemprePuntual(ss, k, cfg) && cfg.ttlVuelo > 0 && DejaCandado(d, cfg)
    requires id in ss[|acs|].sols && ss[|acs|].sols[id] == Solicitud(k, h, true, Ejecutando(t))
    ensures Corrida(ss', acs', cfg) && SiemprePuntual(ss', k, cfg) && acs' == acs + [Termina(id, d), Escribe(id)]
    ensures var s, s' := ss[|acs|], ss'[|acs'|];
      s'.cache == s.cache && s'.ahora == s.ahora && s'.sols == s.sols[id := Solicitud(k, h, true, Ejecutada(t, d))]
  {
    var s := ss[|acs|];
    assert Puntual(s, k, cfg);
    ss', acs' := Prolongar(ss, acs, Termina(id, d), k, cfg);
    ss', acs' := Prolongar(ss', acs', Escribe(id), k, cfg);
    assert ss'[|acs'|].sols == s.sols[id := Solicitud(k, h, true, Ejecutada(t, d))];
  }

  /** And then it lets the next one in: for every configuration, key and such end, in particular every 2xx over the
      limit, some run with everybody in time ends a second request of the key the same way at that very instant. */
  lemma SegundoExito(k: string, h: string, d: Desenlace, cfg: Config) returns (ss: seq<Sistema>, acs: seq<Accion>)
    requires cfg.ttlVuelo > 0 && h != "" && DejaCandado(d, cfg)
    ensures Corrida(ss, acs, cfg) && SiemprePuntual(ss, k, cfg)
    ensures ss[|acs|].sols
         == map[0 := Solicitud(k, h, true, Ejecutada(0, d)), 1 := Solicitud(k, h, true, Ejecutada(cfg.ttlVuelo, d))]
  {
    ss, acs := LlegaYReclama([Sistema(map[], map[], 0)], [], 0, k, h, cfg);
    ss, acs := RespondeYTermina(ss, acs, 0, d, k, h, 0, cfg);
    ss, acs := Prolongar(ss, acs, Pasa(cfg.ttlVuelo), k, cfg);
    ss, acs := LlegaYReclama(ss, acs, 1, k, h, cfg);
    ss, acs := RespondeYTermina(ss, acs, 1, d, k, h, cfg.ttlVuelo, cfg);
  }

  // ---------------------------------------------------------------- entries nobody will clear

  /** A live in-flight entry belongs to a request in the section, or to one that was cancelled or ended with a 2xx
      body over the limit or unreadable. */
  predicate SinHuerfanos(s: Sistema, k: string, cfg: Config) {
    k in s.cache && Vive(s.cache, k, s.ahora) && s.cache[k].valor == EnVuelo ==>
      exists id :: id in s.sols && DuenoDe(s.sols[id], k, s.cache[k].expira, cfg)
  }

  predicate DuenoDe(q: Solicitud, clave: string, expira: nat, cfg: Config) {
    && q.clave == clave
    && (EnSeccion(q) || (q.punto.Ejecutada? && DejaCandado(q.punto.desenlace, cfg)))
    && q.punto.desde + cfg.ttlVuelo == expira
  }

  lemma PasoSinHuerfanos(s: Sistema, a: Accion, k: string, cfg: Config)
    requires Posible(s, a) && SinHuerfanos(s, k, cfg)
    requires Exclusion(s, k) && Candado(s, k, cfg) && Puntual(s, k, cfg)
    ensures SinHuerfanos(Aplicar(s, a, cfg), k, cfg)
  {
    var s' := Aplicar(s, a, cfg);
    if Vive(s'.cache, k, s'.ahora) && s'.cache[k].valor == EnVuelo {
      if Vive(s.cache, k, s.ahora) && s.cache[k] == s'.cache[k] {
        var id :| id in s.sols && DuenoDe(s.sols[id], k, s.cache[k].expira, cfg);
        assert DuenoDe(s'.sols[id], k, s'.cache[k].expira, cfg);
      } else {
        assert DuenoDe(s'.sols[a.id], k, s'.cache[k].expira, cfg);
      }
    }
  }

  /** An in-flight entry without a running owner arises only from such an end. */
  lemma {:induction false} CandadosConDueno(ss: seq<Sistema>, acs: seq<Accion>, k: string, cfg: Config, i: nat)
    requires Corrida(ss, acs, cfg) && SiemprePuntual(ss, k, cfg) && i < |ss|
    ensures SinHuerfanos(ss[i], k, cfg)
  {
    if i > 0 {
      CandadosConDueno(ss, acs, k, cfg, i - 1);
      InvarianteDeCorrida(ss, acs, k, cfg, i - 1);
      assert Puntual(ss[i - 1], k, cfg);
      PasoSinHuerfanos(ss[i - 1], acs[i - 1], k, cfg);
    }
  }

  /** And every other outcome frees the key or replaces the entry by a result, so that a retry can run or
      is replayed. */
  lemma TrasEscribirNoQuedaCandado(cache: Almacen<Valor>, q: Solicitud, d: Desenlace, cfg: Config, ahora: nat)
    requires ConfigValida(cfg) && Vive(cache, q.clave, ahora) && cache[q.clave].valor == EnVuelo
    ensures var c := TrasEscribir(cache, q, d, cfg, ahora);
      && (DejaCandado(d, cfg) <==> Leer(c, q.clave, ahora) == Algo(EnVuelo))
      && (Cacheable(d, q.bodyHash, cfg).Algo? <==> Vive(c, q.clave, ahora) && c[q.clave].valor.Guardado?)
  {
  }
}
