/** The three-level permission lookup of `dependencies.py`: each worker's local map, then Redis, then the
    database. A request is one atomic step; any number of workers share Redis and the database. */
module Permisos {
  import opened Opciones
  import opened Conjuntos
  import opened Redis

  /** PERMISSIONS_LOCAL_CACHE_TTL, PERMISSIONS_CACHE_TTL and PERM_LOCAL_CACHE_MAX. */
  datatype Config = Config(ttlLocal: nat, ttlRedis: nat, maximo: nat)

  predicate ConfigValida(cfg: Config) {
    cfg.ttlRedis > 0 && cfg.maximo > 0
  }

  datatype EntradaLocal = EntradaLocal(permisos: set<string>, ts: nat)

  type Local = map<string, EntradaLocal>

  /** A local entry still serves when its age equals the ttl. */
  function Servida(l: Local, u: string, ahora: nat, cfg: Config): Opcion<set<string>> {
    if u in l && ahora - l[u].ts <= cfg.ttlLocal then Algo(l[u].permisos) else Nada
  }

  function TrasLocalGet(l: Local, u: string, ahora: nat, cfg: Config): Local {
    if Servida(l, u, ahora, cfg).Algo? then l else l - {u}
  }

  /** A full map gives up an oldest entry. */
  predicate VictimaValida(l: Local, v: string, cfg: Config) {
    |l| >= cfg.maximo ==> v in l && forall k :: k in l ==> l[v].ts <= l[k].ts
  }

  function TrasLocalSet(l: Local, u: string, p: set<string>, ahora: nat, v: string, cfg: Config): Local {
    (if |l| >= cfg.maximo then l - {v} else l)[u := EntradaLocal(p, ahora)]
  }

  /** What one lookup leaves behind and what it answers. */
  datatype Consultado = Consultado(local: Local, redis: Almacen<set<string>>, permisos: set<string>)

  function Consultar(l: Local, redis: Almacen<set<string>>, bd: set<string>, u: string, ahora: nat, v: string,
                     cfg: Config): Consultado {
    var servida := Servida(l, u, ahora, cfg);
    var l' := TrasLocalGet(l, u, ahora, cfg);
    var enRedis := Leer(redis, u, ahora);
    if servida.Algo? then Consultado(l', redis, servida.valor)
    else if enRedis.Algo? && enRedis.valor != {} then
      Consultado(TrasLocalSet(l', u, enRedis.valor, ahora, v, cfg), redis, enRedis.valor)
    else if bd != {} then
      Consultado(TrasLocalSet(l', u, bd, ahora, v, cfg), TrasSadd(redis, u, bd, cfg.ttlRedis, ahora), bd)
    else Consultado(l', redis, bd)
  }

  /** The lookup misses the local map and finds something to put in it. */
  predicate Rellena(l: Local, redis: Almacen<set<string>>, bd: set<string>, u: string, ahora: nat, cfg: Config) {
    Servida(l, u, ahora, cfg).Nada? && (bd != {} || (Vive(redis, u, ahora) && redis[u].valor != {}))
  }

  /** One worker process: its `_PERM_LOCAL` and the shared Redis. */
  class Trabajador {
    var local: Local
    const cache: RedisService<set<string>>
    const cfg: Config

    constructor (cache: RedisService<set<string>>, cfg: Config)
      requires ConfigValida(cfg)
      ensures local == map[] && this.cache == cache && this.cfg == cfg
    {
      this.cache := cache;
      this.cfg := cfg;
      local := map[];
    }

    method PermLocalGet(u: string) returns (permisos: Opcion<set<string>>)
      modifies this
      ensures permisos == Servida(old(local), u, cache.ahora, cfg)
      ensures local == TrasLocalGet(old(local), u, cache.ahora, cfg)
    {
      if u !in local {
        assert local - {u} == local;
        return Nada;
      }
      var entrada := local[u];
      if cache.ahora - entrada.ts > cfg.ttlLocal {
        local := local - {u};
        return Nada;
      }
      return Algo(entrada.permisos);
    }

    method MasAntigua() returns (v: string)
      requires local != map[]
      ensures v in local && forall k :: k in local ==> local[v].ts <= local[k].ts
    {
      var resto := local.Keys;
      v := Primera(resto);
      while resto != {}
        invariant resto <= local.Keys && v in local
        invariant forall k :: k in local && k !in resto ==> local[v].ts <= local[k].ts
        decreases resto
      {
        var k := Primera(resto);
        if local[k].ts < local[v].ts { v := k; }
        resto := resto - {k};
      }
    }

    method Primera(s: set<string>) returns (x: string)
      requires s != {}
      ensures x in s
    {
      var testigo := Alguno(s);
      x :| x in s;
    }

    method PermLocalSet(u: string, permisos: set<string>) returns (ghost v: string)
      requires ConfigValida(cfg)
      modifies this
      ensures VictimaValida(old(local), v, cfg)
      ensures |old(local)| >= cfg.maximo ==>
        v in old(local) && forall k :: k in old(local) ==> old(local)[v].ts <= old(local)[k].ts
      ensures local == TrasLocalSet(old(local), u, permisos, cache.ahora, v, cfg)
    {
      v := "";
      if |local| >= cfg.maximo {
        var vieja := MasAntigua();
        v := vieja;
        local := local - {vieja};
      }
      local := local[u := EntradaLocal(permisos, cache.ahora)];
    }

    /** The lookup in `get_usuario_actual`; `bd` is what the database holds for the user. */
    method PermisosDe(u: string, bd: set<string>) returns (permisos: set<string>, ghost v: string)
      requires ConfigValida(cfg)
      modifies this, cache
      ensures Rellena(old(local), old(cache.datos), bd, u, cache.ahora, cfg) ==>
        VictimaValida(TrasLocalGet(old(local), u, cache.ahora, cfg), v, cfg)
      ensures cache.ahora == old(cache.ahora)
      ensures Consultado(local, cache.datos, permisos)
        == Consultar(old(local), old(cache.datos), bd, u, cache.ahora, v, cfg)
    {
      v := "";
      var enLocal := PermLocalGet(u);
      if enLocal.Algo? {
        return enLocal.valor, v;
      }
      var enRedis := cache.Get(u);
      if enRedis.Algo? && enRedis.valor != {} {
        permisos := enRedis.valor;
        v := PermLocalSet(u, permisos);
      } else {
        permisos := bd;
        if permisos != {} {
          EjecutarSadd(cache, u, permisos, cfg.ttlRedis);
          v := PermLocalSet(u, permisos);
        }
      }
    }
  }

  // ---------------------------------------------------------------- runs over any number of workers

  datatype Sistema = Sistema(bd: map<string, set<string>>, redis: Almacen<set<string>>, locales: map<nat, Local>,
                             ahora: nat)

  /** `Cambia` is the commit of a change to what the user may do, and `Invalida` the deletion of his key. Assigning
      or revoking a role does both, the deletion first; `Cambia` with `invalida` is the two with nothing in between.
      Editing a role's permissions is `Cambia` alone, a login `Invalida` alone. */
  datatype Accion =
    | Cambia(u: string, permisos: set<string>, invalida: bool)
    | Invalida(u: string)
    | Consulta(w: nat, u: string, victima: string)
    | Pasa(ticks: nat)

  function EnBd(s: Sistema, u: string): set<string> {
    if u in s.bd then s.bd[u] else {}
  }

  function LocalDe(s: Sistema, w: nat): Local {
    if w in s.locales then s.locales[w] else map[]
  }

  predicate Invalidante(a: Accion, u: string) {
    (a.Cambia? && a.invalida && a.u == u) || (a.Invalida? && a.u == u)
  }

  function Resultado(s: Sistema, a: Accion, cfg: Config): Consultado
    requires a.Consulta?
  {
    Consultar(LocalDe(s, a.w), s.redis, EnBd(s, a.u), a.u, s.ahora, a.victima, cfg)
  }

  predicate Posible(s: Sistema, a: Accion, cfg: Config) {
    a.Consulta? && Rellena(LocalDe(s, a.w), s.redis, EnBd(s, a.u), a.u, s.ahora, cfg) ==>
      VictimaValida(TrasLocalGet(LocalDe(s, a.w), a.u, s.ahora, cfg), a.victima, cfg)
  }

  function Aplicar(s: Sistema, a: Accion, cfg: Config): Sistema {
    match a
    case Cambia(u, p, invalida) =>
      s.(bd := s.bd[u := p], redis := if invalida then TrasDelete(s.redis, u) else s.redis)
    case Invalida(u) => s.(redis := TrasDelete(s.redis, u))
    case Consulta(w, _, _) =>
      var r := Resultado(s, a, cfg);
      s.(locales := s.locales[w := r.local], redis := r.redis)
    case Pasa(ticks) => s.(ahora := s.ahora + ticks)
  }

  /** Request `i` leads from moment `i` to the next. */
  predicate Da(ss: seq<Sistema>, acs: seq<Accion>, cfg: Config, i: int)
    requires 0 <= i < |acs| < |ss|
  {
    Posible(ss[i], acs[i], cfg) && ss[i + 1] == Aplicar(ss[i], acs[i], cfg)
  }

  predicate Corrida(ss: seq<Sistema>, acs: seq<Accion>, cfg: Config) {
    && |ss| == |acs| + 1 && ss[0].redis == map[] && ss[0].locales == map[]
    && forall i :: 0 <= i < |acs| ==> Da(ss, acs, cfg, i)
  }

  // ---------------------------------------------------------------- where a cached set comes from

  predicate ConsultaDe(a: Accion, u: string) {
    a.Consulta? && a.u == u
  }

  /** The guard of the branch that refills: the worker's map and Redis have nothing to serve, and the database has.
      Such a lookup of the user puts what it reads into Redis. */
  predicate Repone(s: Sistema, a: Accion, cfg: Config) {
    && a.Consulta? && Servida(LocalDe(s, a.w), a.u, s.ahora, cfg).Nada?
    && !(Vive(s.redis, a.u, s.ahora) && s.redis[a.u].valor != {}) && EnBd(s, a.u) != {}
  }

  predicate ReponeA(s: Sistema, a: Accion, cfg: Config, u: string) {
    Repone(s, a, cfg) && a.u == u
  }

  /** The lookup at moment `k` explains a Redis entry of `u` as of moment `i`. */
  ghost predicate ExplicaRedis(ss: seq<Sistema>, acs: seq<Accion>, cfg: Config, i: nat, k: nat, u: string,
                               e: Entrada<set<string>>)
    requires |ss| == |acs| + 1 && i < |ss|
  {
    && k < i && ReponeA(ss[k], acs[k], cfg, u) && EnBd(ss[k], u) == e.valor
    && !e.fija && e.expira <= ss[k].ahora + cfg.ttlRedis
    && forall c :: 0 <= c < i && Invalidante(acs[c], u) ==> c < k
  }

  /** The lookup at moment `k` explains a local entry of `u` as of moment `i`. */
  ghost predicate ExplicaLocal(ss: seq<Sistema>, acs: seq<Accion>, cfg: Config, i: nat, k: nat, u: string,
                               e: EntradaLocal)
    requires |ss| == |acs| + 1 && i < |ss|
  {
    && k < i && ReponeA(ss[k], acs[k], cfg, u) && EnBd(ss[k], u) == e.permisos
    && e.ts < ss[k].ahora + cfg.ttlRedis && e.ts <= ss[i].ahora
    && forall c :: 0 <= c < i && Invalidante(acs[c], u) ==> c < k || e.ts <= ss[c].ahora
  }

  ghost predicate RedisExplicado(ss: seq<Sistema>, acs: seq<Accion>, cfg: Config, i: nat, u: string,
                                 e: Entrada<set<string>>)
    requires |ss| == |acs| + 1 && i < |ss|
  {
    exists k: nat :: ExplicaRedis(ss, acs, cfg, i, k, u, e)
  }

  ghost predicate LocalExplicado(ss: seq<Sistema>, acs: seq<Accion>, cfg: Config, i: nat, u: string, e: EntradaLocal)
    requires |ss| == |acs| + 1 && i < |ss|
  {
    exists k: nat :: ExplicaLocal(ss, acs, cfg, i, k, u, e)
  }

  ghost predicate Explicado(ss: seq<Sistema>, acs: seq<Accion>, cfg: Config, i: nat)
    requires |ss| == |acs| + 1 && i < |ss|
  {
    && (forall u :: u in ss[i].redis ==> RedisExplicado(ss, acs, cfg, i, u, ss[i].redis[u]))
    && (forall w: nat, u :: u in LocalDe(ss[i], w) ==> LocalExplicado(ss, acs, cfg, i, u, LocalDe(ss[i], w)[u]))
  }

  /** What a lookup answers, whatever it leaves behind. */
  function Respuesta(s: Sistema, a: Accion, cfg: Config): set<string>
    requires a.Consulta?
  {
    var l := LocalDe(s, a.w);
    if Servida(l, a.u, s.ahora, cfg).Algo? then l[a.u].permisos
    else if Vive(s.redis, a.u, s.ahora) && s.redis[a.u].valor != {} then s.redis[a.u].valor
    else EnBd(s, a.u)
  }

  lemma ConsultaResponde(l: Local, redis: Almacen<set<string>>, bd: set<string>, u: string, ahora: nat, v: string,
                         cfg: Config)
    ensures Consultar(l, redis, bd, u, ahora, v, cfg).permisos
         == if Servida(l, u, ahora, cfg).Algo? then l[u].permisos
            else if Vive(redis, u, ahora) && redis[u].valor != {} then redis[u].valor
            else bd
  {
  }

  lemma RespuestaEs(s: Sistema, a: Accion, cfg: Config)
    requires a.Consulta?
    ensures Resultado(s, a, cfg).permisos == Respuesta(s, a, cfg)
  {
    ConsultaResponde(LocalDe(s, a.w), s.redis, EnBd(s, a.u), a.u, s.ahora, a.victima, cfg);
  }

  /** What a lookup at moment `i` answers without its worker's map is explained: right now, or by the Redis entry. */
  lemma RespuestaSinLocal(ss: seq<Sistema>, acs: seq<Accion>, cfg: Config, i: nat) returns (k: nat)
    requires |ss| == |acs| + 1 && ConfigValida(cfg) && i < |acs| && acs[i].Consulta? && Explicado(ss, acs, cfg, i)
    requires Servida(LocalDe(ss[i], acs[i].w), acs[i].u, ss[i].ahora, cfg).Nada?
    ensures k <= i && EnBd(ss[k], acs[i].u) == Respuesta(ss[i], acs[i], cfg)
    ensures k < i || Respuesta(ss[i], acs[i], cfg) != {} ==> ReponeA(ss[k], acs[k], cfg, acs[i].u)
    ensures ss[i].ahora < ss[k].ahora + cfg.ttlRedis
    ensures forall c :: 0 <= c < i && Invalidante(acs[c], acs[i].u) ==> c < k
  {
    var s, u := ss[i], acs[i].u;
    if Leer(s.redis, u, s.ahora).Algo? && s.redis[u].valor != {} {
      assert RedisExplicado(ss, acs, cfg, i, u, s.redis[u]);
      k :| ExplicaRedis(ss, acs, cfg, i, k, u, s.redis[u]);
    } else {
      k := i;
    }
  }

  /** What any lookup answers is explained: right now, or by the entry it used. */
  lemma RespuestaExplicada(ss: seq<Sistema>, acs: seq<Accion>, cfg: Config, i: nat) returns (k: nat)
    requires |ss| == |acs| + 1 && ConfigValida(cfg) && i < |acs| && acs[i].Consulta? && Explicado(ss, acs, cfg, i)
    ensures k <= i && EnBd(ss[k], acs[i].u) == Respuesta(ss[i], acs[i], cfg)
    ensures k < i ==> ReponeA(ss[k], acs[k], cfg, acs[i].u)
    ensures ss[i].ahora < ss[k].ahora + cfg.ttlLocal + cfg.ttlRedis
    ensures forall c :: 0 <= c < i && Invalidante(acs[c], acs[i].u) ==>
      c < k || ss[i].ahora <= ss[c].ahora + cfg.ttlLocal
  {
    var s, u := ss[i], acs[i].u;
    var l := LocalDe(s, acs[i].w);
    if Servida(l, u, s.ahora, cfg).Algo? {
      assert LocalExplicado(ss, acs, cfg, i, u, l[u]);
      k :| ExplicaLocal(ss, acs, cfg, i, k, u, l[u]);
    } else {
      k := RespuestaSinLocal(ss, acs, cfg, i);
    }
  }

  lemma ConsultaEnRedis(l: Local, redis: Almacen<set<string>>, bd: set<string>, u: string, ahora: nat, v: string,
                        cfg: Config, otro: string)
    requires ConfigValida(cfg) && otro in Consultar(l, redis, bd, u, ahora, v, cfg).redis
    ensures var e := Consultar(l, redis, bd, u, ahora, v, cfg).redis[otro];
      || (otro in redis && redis[otro] == e)
      || (&& otro == u && e == Entrada(bd, ahora + cfg.ttlRedis) && bd != {} && Servida(l, u, ahora, cfg).Nada?
          && !(Vive(redis, u, ahora) && redis[u].valor != {}))
  {
    ConsultaEscribeRedis(l, redis, bd, u, ahora, v, cfg);
    if otro != u { SaddEnOtra(redis, u, bd, cfg.ttlRedis, ahora, otro); }
    assert {} + bd == bd;
  }

  /** One step either keeps a Redis entry, without deleting its key, or fills it from the database. */
  lemma PasoEnRedis(s: Sistema, a: Accion, cfg: Config, u: string)
    requires ConfigValida(cfg) && u in Aplicar(s, a, cfg).redis
    ensures var e := Aplicar(s, a, cfg).redis[u];
      || (u in s.redis && s.redis[u] == e && !Invalidante(a, u))
      || (ReponeA(s, a, cfg, u) && e == Entrada(EnBd(s, u), s.ahora + cfg.ttlRedis))
  {
    if a.Consulta? {
      ConsultaEnRedis(LocalDe(s, a.w), s.redis, EnBd(s, a.u), a.u, s.ahora, a.victima, cfg, u);
    }
  }

  lemma TrasLocalSetEn(l: Local, u: string, p: set<string>, ahora: nat, v: string, cfg: Config, otro: string)
    requires otro in TrasLocalSet(l, u, p, ahora, v, cfg)
    ensures var l' := TrasLocalSet(l, u, p, ahora, v, cfg);
      if otro == u then l'[otro] == EntradaLocal(p, ahora) else otro in l && l[otro] == l'[otro]
  {
  }

  lemma ConsultaEnLocal(l: Local, redis: Almacen<set<string>>, bd: set<string>, u: string, ahora: nat, v: string,
                        cfg: Config, otro: string)
    requires otro in Consultar(l, redis, bd, u, ahora, v, cfg).local
    ensures var r := Consultar(l, redis, bd, u, ahora, v, cfg);
      || (otro in l && l[otro] == r.local[otro])
      || (&& otro == u && Servida(l, u, ahora, cfg).Nada? && r.permisos != {}
          && r.local[u] == EntradaLocal(r.permisos, ahora))
  {
    var l' := TrasLocalGet(l, u, ahora, cfg);
    if Rellena(l, redis, bd, u, ahora, cfg) {
      TrasLocalSetEn(l', u, Consultar(l, redis, bd, u, ahora, v, cfg).permisos, ahora, v, cfg, otro);
    }
  }

  /** One step either keeps a local entry or fills it with what the lookup answers. */
  lemma PasoEnLocal(s: Sistema, a: Accion, cfg: Config, w: nat, u: string)
    requires u in LocalDe(Aplicar(s, a, cfg), w)
    ensures var l, e := LocalDe(s, w), LocalDe(Aplicar(s, a, cfg), w)[u];
      || (u in l && l[u] == e)
      || (&& a.Consulta? && a.u == u && a.w == w && Servida(l, u, s.ahora, cfg).Nada?
          && Respuesta(s, a, cfg) != {} && e == EntradaLocal(Respuesta(s, a, cfg), s.ahora))
  {
    if a.Consulta? && a.w == w {
      RespuestaEs(s, a, cfg);
      ConsultaEnLocal(LocalDe(s, w), s.redis, EnBd(s, a.u), a.u, s.ahora, a.victima, cfg, u);
      assert LocalDe(Aplicar(s, a, cfg), w) == Resultado(s, a, cfg).local;
    } else {
      assert LocalDe(Aplicar(s, a, cfg), w) == LocalDe(s, w);
    }
  }

  lemma RedisSigueExplicado(ss: seq<Sistema>, acs: seq<Accion>, cfg: Config, j: nat, u: string)
    requires Corrida(ss, acs, cfg) && ConfigValida(cfg) && 0 < j < |ss| && Explicado(ss, acs, cfg, j - 1)
    requires u in ss[j].redis
    ensures RedisExplicado(ss, acs, cfg, j, u, ss[j].redis[u])
  {
    var s, a, e := ss[j - 1], acs[j - 1], ss[j].redis[u];
    assert Da(ss, acs, cfg, j - 1);
    PasoEnRedis(s, a, cfg, u);
    if u in s.redis && s.redis[u] == e {
      assert RedisExplicado(ss, acs, cfg, j - 1, u, e);
      var k: nat :| ExplicaRedis(ss, acs, cfg, j - 1, k, u, e);
      assert ExplicaRedis(ss, acs, cfg, j, k, u, e);
    } else {
      assert ExplicaRedis(ss, acs, cfg, j, j - 1, u, e);
    }
  }

  /** What one step does to a local entry that is there after it. */
  predicate LocalTras(s: Sistema, a: Accion, s': Sistema, cfg: Config, w: nat, u: string)
    requires u in LocalDe(s', w)
  {
    var l, e := LocalDe(s, w), LocalDe(s', w)[u];
    && s.ahora <= s'.ahora
    && (|| (u in l && l[u] == e)
        || (&& ConsultaDe(a, u) && a.w == w && Servida(l, u, s.ahora, cfg).Nada?
            && Respuesta(s, a, cfg) != {} && e == EntradaLocal(Respuesta(s, a, cfg), s.ahora)))
  }

  lemma LocalTrasPaso(ss: seq<Sistema>, acs: seq<Accion>, cfg: Config, j: nat, w: nat, u: string)
    requires Corrida(ss, acs, cfg) && 0 < j < |ss| && u in LocalDe(ss[j], w)
    ensures LocalTras(ss[j - 1], acs[j - 1], ss[j], cfg, w, u)
  {
    assert Da(ss, acs, cfg, j - 1);
    PasoEnLocal(ss[j - 1], acs[j - 1], cfg, w, u);
  }

  lemma LocalSigueExplicado(ss: seq<Sistema>, acs: seq<Accion>, cfg: Config, j: nat, w: nat, u: string)
    requires |ss| == |acs| + 1 && ConfigValida(cfg) && 0 < j < |ss| && Explicado(ss, acs, cfg, j - 1)
    requires u in LocalDe(ss[j], w) && LocalTras(ss[j - 1], acs[j - 1], ss[j], cfg, w, u)
    ensures LocalExplicado(ss, acs, cfg, j, u, LocalDe(ss[j], w)[u])
  {
    var s, e := ss[j - 1], LocalDe(ss[j], w)[u];
    if u in LocalDe(s, w) && LocalDe(s, w)[u] == e {
      LocalConservada(ss, acs, cfg, j, w, u, e);
    } else {
      var k := RespuestaSinLocal(ss, acs, cfg, j - 1);
      LocalRecienPuesta(ss, acs, cfg, j, k, u, e);
    }
  }

  lemma LocalConservada(ss: seq<Sistema>, acs: seq<Accion>, cfg: Config, j: nat, w: nat, u: string, e: EntradaLocal)
    requires |ss| == |acs| + 1 && 0 < j < |ss| && Explicado(ss, acs, cfg, j - 1) && ss[j - 1].ahora <= ss[j].ahora
    requires u in LocalDe(ss[j - 1], w) && LocalDe(ss[j - 1], w)[u] == e
    ensures LocalExplicado(ss, acs, cfg, j, u, e)
  {
    assert LocalExplicado(ss, acs, cfg, j - 1, u, e);
    var k: nat :| ExplicaLocal(ss, acs, cfg, j - 1, k, u, e);
    assert ExplicaLocal(ss, acs, cfg, j, k, u, e);
  }

  lemma LocalRecienPuesta(ss: seq<Sistema>, acs: seq<Accion>, cfg: Config, j: nat, k: nat, u: string, e: EntradaLocal)
    requires |ss| == |acs| + 1 && k < j < |ss| && ReponeA(ss[k], acs[k], cfg, u) && EnBd(ss[k], u) == e.permisos
    requires e.ts < ss[k].ahora + cfg.ttlRedis && e.ts <= ss[j].ahora && !Invalidante(acs[j - 1], u)
    requires forall c :: 0 <= c < j - 1 && Invalidante(acs[c], u) ==> c < k
    ensures LocalExplicado(ss, acs, cfg, j, u, e)
  {
    assert ExplicaLocal(ss, acs, cfg, j, k, u, e);
  }

  lemma {:induction false} SiempreExplicado(ss: seq<Sistema>, acs: seq<Accion>, cfg: Config, i: nat)
    requires Corrida(ss, acs, cfg) && ConfigValida(cfg) && i < |ss|
    ensures Explicado(ss, acs, cfg, i)
  {
    if i > 0 {
      SiempreExplicado(ss, acs, cfg, i - 1);
      forall u | u in ss[i].redis ensures RedisExplicado(ss, acs, cfg, i, u, ss[i].redis[u]) {
        RedisSigueExplicado(ss, acs, cfg, i, u);
      }
      forall w: nat, u | u in LocalDe(ss[i], w) ensures LocalExplicado(ss, acs, cfg, i, u, LocalDe(ss[i], w)[u]) {
        LocalTrasPaso(ss, acs, cfg, i, w, u);
        LocalSigueExplicado(ss, acs, cfg, i, w, u);
      }
    }
  }

  // ---------------------------------------------------------------- bounded staleness

  /** The lookup `a` in state `s` answers what the database held in `antes`, less than both ttls ago. */
  predicate EsDelMomento(antes: Sistema, s: Sistema, a: Accion, cfg: Config)
    requires a.Consulta?
  {
    EnBd(antes, a.u) == Resultado(s, a, cfg).permisos && s.ahora < antes.ahora + cfg.ttlLocal + cfg.ttlRedis
  }

  /** Moment `k` accounts for what lookup `i` answers: it is recent, it is `i` itself or refilled Redis, and it is not
      before a deletion of the key that has had a local ttl to be noticed. */
  ghost predicate Responde(ss: seq<Sistema>, acs: seq<Accion>, cfg: Config, i: nat, k: nat)
    requires i < |acs| < |ss| && acs[i].Consulta?
  {
    && k <= i && EsDelMomento(ss[k], ss[i], acs[i], cfg) && (k < i ==> ReponeA(ss[k], acs[k], cfg, acs[i].u))
    && forall c :: 0 <= c < i && Invalidante(acs[c], acs[i].u) ==> c < k || ss[i].ahora <= ss[c].ahora + cfg.ttlLocal
  }

  lemma HayRespuesta(ss: seq<Sistema>, acs: seq<Accion>, cfg: Config, i: nat) returns (k: nat)
    requires Corrida(ss, acs, cfg) && ConfigValida(cfg) && i < |acs| && acs[i].Consulta?
    ensures Responde(ss, acs, cfg, i, k)
  {
    SiempreExplicado(ss, acs, cfg, i);
    k := RespuestaExplicada(ss, acs, cfg, i);
    RespuestaEs(ss[i], acs[i], cfg);
  }

  /** The permissions a request uses are those the database held at some moment less than both ttls ago. */
  lemma AntiguedadAcotada(ss: seq<Sistema>, acs: seq<Accion>, cfg: Config, i: nat)
    requires Corrida(ss, acs, cfg) && ConfigValida(cfg) && i < |acs| && acs[i].Consulta?
    ensures exists k :: 0 <= k <= i && EsDelMomento(ss[k], ss[i], acs[i], cfg)
  {
    var k := HayRespuesta(ss, acs, cfg, i);
  }

  /** Once the local ttl has passed since the user's key was deleted, what a request uses is never older
      than that deletion, on any worker. */
  lemma InvalidacionSurteEfecto(ss: seq<Sistema>, acs: seq<Accion>, cfg: Config, c: nat, i: nat)
    requires Corrida(ss, acs, cfg) && ConfigValida(cfg) && c < i < |acs| && acs[i].Consulta?
    requires Invalidante(acs[c], acs[i].u) && ss[c].ahora + cfg.ttlLocal < ss[i].ahora
    ensures exists k :: c < k <= i && EsDelMomento(ss[k], ss[i], acs[i], cfg)
  {
    var k := HayRespuesta(ss, acs, cfg, i);
  }

  /** What the request uses was in the database at some moment after the commit at `b`. */
  ghost predicate UsaLoNuevo(ss: seq<Sistema>, acs: seq<Accion>, cfg: Config, b: nat, i: nat)
    requires i < |acs| < |ss| && acs[i].Consulta?
  {
    exists k :: b < k <= i && EsDelMomento(ss[k], ss[i], acs[i], cfg)
  }

  /** No lookup of the user strictly between `c` and `b` refills. */
  predicate NadieRepone(ss: seq<Sistema>, acs: seq<Accion>, cfg: Config, u: string, c: nat, b: nat)
    requires b <= |acs| < |ss|
  {
    forall j :: c < j < b ==> !ReponeA(ss[j], acs[j], cfg, u)
  }

  lemma DespuesDelCommit(ss: seq<Sistema>, acs: seq<Accion>, cfg: Config, u: string, c: nat, b: nat, k: nat)
    requires c < k < |acs| < |ss| && b < |acs| && acs[b].Cambia? && NadieRepone(ss, acs, cfg, u, c, b)
    requires ReponeA(ss[k], acs[k], cfg, u)
    ensures b < k
  {
  }

  /** The use cases delete the key first and the session commits the change afterwards. If no lookup between the
      deletion at `c` and the commit at `b` refills, then once the local ttl has passed since the deletion what a
      request uses is never older than the change. */
  lemma CambioSurteEfecto(ss: seq<Sistema>, acs: seq<Accion>, cfg: Config, c: nat, b: nat, i: nat)
    requires Corrida(ss, acs, cfg) && ConfigValida(cfg) && c <= b < i < |acs| && acs[i].Consulta?
    requires Invalidante(acs[c], acs[i].u) && acs[b].Cambia? && acs[b].u == acs[i].u
    requires NadieRepone(ss, acs, cfg, acs[i].u, c, b)
    requires ss[c].ahora + cfg.ttlLocal < ss[i].ahora
    ensures UsaLoNuevo(ss, acs, cfg, b, i)
  {
    var k := HayRespuesta(ss, acs, cfg, i);
    if k < i { DespuesDelCommit(ss, acs, cfg, acs[i].u, c, b, k); }
  }

  /** One step keeps a living Redis entry that holds something, unless it deletes the key. */
  lemma RedisSeConserva(s: Sistema, a: Accion, cfg: Config, u: string)
    requires Vive(s.redis, u, s.ahora) && s.redis[u].valor != {} && !Invalidante(a, u)
    ensures u in Aplicar(s, a, cfg).redis && Aplicar(s, a, cfg).redis[u] == s.redis[u]
  {
    if a.Consulta? {
      ConsultaConservaRedis(LocalDe(s, a.w), s.redis, EnBd(s, a.u), a.u, s.ahora, a.victima, cfg, u);
    }
  }

  lemma ConsultaConservaRedis(l: Local, redis: Almacen<set<string>>, bd: set<string>, u: string, ahora: nat, v: string,
                              cfg: Config, otro: string)
    requires Vive(redis, otro, ahora) && redis[otro].valor != {}
    ensures var r := Consultar(l, redis, bd, u, ahora, v, cfg).redis; otro in r && r[otro] == redis[otro]
  {
    ConsultaEscribeRedis(l, redis, bd, u, ahora, v, cfg);
    if otro != u { SaddEnOtra(redis, u, bd, cfg.ttlRedis, ahora, otro); }
  }

  lemma SaddEnOtra(redis: Almacen<set<string>>, u: string, p: set<string>, ttl: nat, ahora: nat, otro: string)
    requires otro in redis && otro != u
    ensures otro in TrasSadd(redis, u, p, ttl, ahora) && TrasSadd(redis, u, p, ttl, ahora)[otro] == redis[otro]
  {
  }

  /** A lookup writes to Redis only when it went to the database and found something. */
  lemma ConsultaEscribeRedis(l: Local, redis: Almacen<set<string>>, bd: set<string>, u: string, ahora: nat, v: string,
                             cfg: Config)
    ensures var r := Consultar(l, redis, bd, u, ahora, v, cfg).redis;
      var vacia := !Vive(redis, u, ahora) || redis[u].valor == {};
      r == if Servida(l, u, ahora, cfg).Nada? && vacia && bd != {}
           then TrasSadd(redis, u, bd, cfg.ttlRedis, ahora) else redis
  {
  }

  /** A lookup that refills leaves in Redis what the database held, for a whole Redis ttl. */
  lemma AlReponer(s: Sistema, a: Accion, cfg: Config, u: string)
    requires ConfigValida(cfg) && ReponeA(s, a, cfg, u)
    ensures var r := Aplicar(s, a, cfg).redis; u in r && r[u] == Entrada(EnBd(s, u), s.ahora + cfg.ttlRedis)
  {
    ConsultaEscribeRedis(LocalDe(s, a.w), s.redis, EnBd(s, u), u, s.ahora, a.victima, cfg);
    SaddEnVacia(s.redis, u, EnBd(s, u), cfg.ttlRedis, s.ahora);
  }

  /** A refilling lookup undoes the deletion. What it reads from the database goes back into Redis and stays there
      for a whole Redis ttl, whatever is committed meanwhile, unless the key is deleted again... */
  lemma {:induction false} RellenoPersiste(ss: seq<Sistema>, acs: seq<Accion>, cfg: Config, l: nat, i: nat, u: string)
    requires Corrida(ss, acs, cfg) && ConfigValida(cfg) && l < i < |ss| && ReponeA(ss[l], acs[l], cfg, u)
    requires forall j :: l < j < i ==> !Invalidante(acs[j], u)
    requires ss[i].ahora < ss[l].ahora + cfg.ttlRedis
    ensures u in ss[i].redis && ss[i].redis[u] == Entrada(EnBd(ss[l], u), ss[l].ahora + cfg.ttlRedis)
    decreases i
  {
    assert Da(ss, acs, cfg, i - 1);
    if i == l + 1 {
      AlReponer(ss[l], acs[l], cfg, u);
    } else {
      assert ss[i - 1].ahora <= ss[i].ahora;
      RellenoPersiste(ss, acs, cfg, l, i - 1, u);
      RedisSeConserva(ss[i - 1], acs[i - 1], cfg, u);
    }
  }

  /** ... so every worker that has no entry of its own uses the old permissions until then, although the change was
      committed and the local ttl passed long ago. */
  lemma ConsultaEntreMedias(ss: seq<Sistema>, acs: seq<Accion>, cfg: Config, l: nat, i: nat)
    requires Corrida(ss, acs, cfg) && ConfigValida(cfg) && l < i < |acs| && acs[i].Consulta?
    requires ReponeA(ss[l], acs[l], cfg, acs[i].u)
    requires forall j :: l < j < i ==> !Invalidante(acs[j], acs[i].u)
    requires ss[i].ahora < ss[l].ahora + cfg.ttlRedis
    requires Servida(LocalDe(ss[i], acs[i].w), acs[i].u, ss[i].ahora, cfg).Nada?
    ensures Resultado(ss[i], acs[i], cfg).permisos == EnBd(ss[l], acs[i].u)
  {
    RellenoPersiste(ss, acs, cfg, l, i, acs[i].u);
  }

  /** The database holds for the user nothing again, from the commit on, of what it held at moment `l`. */
  predicate NoVuelve(ss: seq<Sistema>, u: string, l: nat, b: nat, i: nat)
    requires l < |ss| && i < |ss|
  {
    forall k :: b < k <= i ==> EnBd(ss[k], u) != EnBd(ss[l], u)
  }

  /** The converse: if a lookup at `l`, before the commit, refills and the key is not deleted again, then as long as
      that entry lives a worker without one of its own does not use the change. */
  lemma ReponerImpide(ss: seq<Sistema>, acs: seq<Accion>, cfg: Config, l: nat, b: nat, i: nat)
    requires Corrida(ss, acs, cfg) && ConfigValida(cfg) && l < b < i < |acs| && acs[i].Consulta?
    requires ReponeA(ss[l], acs[l], cfg, acs[i].u) && NoVuelve(ss, acs[i].u, l, b, i)
    requires forall j :: l < j < i ==> !Invalidante(acs[j], acs[i].u)
    requires ss[i].ahora < ss[l].ahora + cfg.ttlRedis
    requires Servida(LocalDe(ss[i], acs[i].w), acs[i].u, ss[i].ahora, cfg).Nada?
    ensures !UsaLoNuevo(ss, acs, cfg, b, i)
  {
    ConsultaEntreMedias(ss, acs, cfg, l, i);
  }

  lemma {:induction false} RelojAvanza(ss: seq<Sistema>, acs: seq<Accion>, cfg: Config, i: nat, j: nat)
    requires Corrida(ss, acs, cfg) && i <= j < |ss|
    ensures ss[i].ahora <= ss[j].ahora
    decreases j
  {
    if i < j {
      assert Da(ss, acs, cfg, j - 1);
      RelojAvanza(ss, acs, cfg, i, j - 1);
    }
  }

  /** Both together. After a deletion at `c`, the key's last, and a commit at `b` that replaces the old permissions for
      good, once the local ttl has passed and before the Redis ttl has, a worker without an entry of its own uses the
      change if and only if no lookup between the two refilled. */
  lemma CambioSurteEfectoSii(ss: seq<Sistema>, acs: seq<Accion>, cfg: Config, c: nat, b: nat, i: nat)
    requires Corrida(ss, acs, cfg) && ConfigValida(cfg) && c <= b < i < |acs| && acs[i].Consulta?
    requires Invalidante(acs[c], acs[i].u) && acs[b].Cambia? && acs[b].u == acs[i].u
    requires forall j :: c < j < i ==> !Invalidante(acs[j], acs[i].u)
    requires forall l :: c < l < b ==> NoVuelve(ss, acs[i].u, l, b, i)
    requires ss[c].ahora + cfg.ttlLocal < ss[i].ahora < ss[c].ahora + cfg.ttlRedis
    requires Servida(LocalDe(ss[i], acs[i].w), acs[i].u, ss[i].ahora, cfg).Nada?
    ensures UsaLoNuevo(ss, acs, cfg, b, i) <==> NadieRepone(ss, acs, cfg, acs[i].u, c, b)
  {
    if l :| c < l < b && ReponeA(ss[l], acs[l], cfg, acs[i].u) {
      RelojAvanza(ss, acs, cfg, c, l);
      ReponerImpide(ss, acs, cfg, l, b, i);
    } else {
      CambioSurteEfecto(ss, acs, cfg, c, b, i);
    }
  }

  lemma Prolongar(ss: seq<Sistema>, acs: seq<Accion>, a: Accion, s': Sistema, cfg: Config)
    returns (ss': seq<Sistema>, acs': seq<Accion>)
    requires Corrida(ss, acs, cfg) && Posible(ss[|acs|], a, cfg) && s' == Aplicar(ss[|acs|], a, cfg)
    ensures Corrida(ss', acs', cfg) && ss' == ss + [s'] && acs' == acs + [a]
  {
    ss', acs' := ss + [s'], acs + [a];
    forall i | 0 <= i < |acs'| ensures Da(ss', acs', cfg, i) {
      if i < |acs| { DaIgual(ss, acs, a, s', cfg, i); }
    }
  }

  lemma DaIgual(ss: seq<Sistema>, acs: seq<Accion>, a: Accion, s': Sistema, cfg: Config, i: nat)
    requires i < |acs| < |ss| && Da(ss, acs, cfg, i)
    ensures Da(ss + [s'], acs + [a], cfg, i)
  {
  }

  lemma AlBorrar(s: Sistema, u: string, cfg: Config)
    requires s.redis == map[]
    ensures Aplicar(s, Invalida(u), cfg) == s
  {
  }

  /** A lookup by a worker whose map is empty, with Redis empty or filled. */
  lemma AlConsultar(s: Sistema, w: nat, u: string, cfg: Config)
    requires ConfigValida(cfg) && LocalDe(s, w) == map[]
    ensures Posible(s, Consulta(w, u, ""), cfg)
    ensures Aplicar(s, Consulta(w, u, ""), cfg).bd == s.bd && Aplicar(s, Consulta(w, u, ""), cfg).ahora == s.ahora
    ensures forall v :: v != w ==> LocalDe(Aplicar(s, Consulta(w, u, ""), cfg), v) == LocalDe(s, v)
  {
    assert TrasLocalGet(map[], u, s.ahora, cfg) == map[];
  }

  lemma HastaLaConsulta(cfg: Config, u: string, viejos: set<string>) returns (ss: seq<Sistema>, acs: seq<Accion>)
    requires ConfigValida(cfg) && viejos != {}
    ensures Corrida(ss, acs, cfg) && acs == [Invalida(u), Consulta(0, u, "")]
    ensures ReponeA(ss[1], acs[1], cfg, u) && EnBd(ss[1], u) == viejos && ss[1].ahora == ss[2].ahora == 0
    ensures LocalDe(ss[2], 1) == map[]
  {
    var s0: Sistema := Sistema(map[u := viejos], map[], map[], 0);
    AlBorrar(s0, u, cfg);
    ss, acs := Prolongar([s0], [], Invalida(u), s0, cfg);
    AlConsultar(s0, 0, u, cfg);
    ss, acs := Prolongar(ss, acs, Consulta(0, u, ""), Aplicar(s0, Consulta(0, u, ""), cfg), cfg);
  }

  lemma DesdeElCambio(ss: seq<Sistema>, acs: seq<Accion>, cfg: Config, u: string, nuevos: set<string>, demora: nat)
    returns (ss': seq<Sistema>, acs': seq<Accion>)
    requires Corrida(ss, acs, cfg) && ConfigValida(cfg) && LocalDe(ss[|acs|], 1) == map[]
    ensures Corrida(ss', acs', cfg) && acs' == acs + [Cambia(u, nuevos, false), Pasa(demora), Consulta(1, u, "")]
    ensures |ss'| == |ss| + 3 && ss'[..|ss|] == ss
    ensures var s := ss'[|acs| + 2];
      EnBd(s, u) == nuevos && s.ahora == ss[|acs|].ahora + demora && LocalDe(s, 1) == map[]
  {
    var s := ss[|acs|].(bd := ss[|acs|].bd[u := nuevos]);
    ss', acs' := Prolongar(ss, acs, Cambia(u, nuevos, false), s, cfg);
    s := s.(ahora := s.ahora + demora);
    ss', acs' := Prolongar(ss', acs', Pasa(demora), s, cfg);
    AlConsultar(s, 1, u, cfg);
    ss', acs' := Prolongar(ss', acs', Consulta(1, u, ""), Aplicar(s, Consulta(1, u, ""), cfg), cfg);
  }

  /** Such a run is there for every configuration: the key is deleted, a worker looks the user up, the change is
      committed, and another worker looks him up. */
  lemma CasoPosible(cfg: Config, u: string, viejos: set<string>, nuevos: set<string>, demora: nat)
    returns (ss: seq<Sistema>, acs: seq<Accion>)
    requires ConfigValida(cfg) && viejos != {} && demora < cfg.ttlRedis
    ensures Corrida(ss, acs, cfg)
    ensures acs == [Invalida(u), Consulta(0, u, "")] + [Cambia(u, nuevos, false), Pasa(demora), Consulta(1, u, "")]
    ensures EnBd(ss[4], u) == nuevos && Resultado(ss[4], acs[4], cfg).permisos == viejos
  {
    var ss2, acs2 := HastaLaConsulta(cfg, u, viejos);
    ss, acs := DesdeElCambio(ss2, acs2, cfg, u, nuevos, demora);
    assert ss[1] == ss[..3][1] && ss[2] == ss[..3][2];
    ConsultaEntreMedias(ss, acs, cfg, 1, 4);
  }

  /** A worker with an empty map copies a living Redis entry, dated now... */
  lemma AlCopiar(s: Sistema, w: nat, u: string, cfg: Config)
    requires ConfigValida(cfg) && LocalDe(s, w) == map[] && Vive(s.redis, u, s.ahora) && s.redis[u].valor != {}
    ensures var s' := Aplicar(s, Consulta(w, u, ""), cfg);
      Posible(s, Consulta(w, u, ""), cfg) && LocalDe(s', w) == map[u := EntradaLocal(s.redis[u].valor, s.ahora)]
        && s'.bd == s.bd && s'.ahora == s.ahora
  {
    assert TrasLocalGet(map[], u, s.ahora, cfg) == map[];
  }

  /** ... and answers from the copy while its age is at most the local ttl. */
  lemma AlServir(s: Sistema, w: nat, u: string, cfg: Config)
    requires Servida(LocalDe(s, w), u, s.ahora, cfg).Algo?
    ensures Posible(s, Consulta(w, u, ""), cfg)
    ensures Resultado(s, Consulta(w, u, ""), cfg).permisos == LocalDe(s, w)[u].permisos
  {
  }

  lemma HastaElCambio(cfg: Config, u: string, viejos: set<string>, nuevos: set<string>)
    returns (ss: seq<Sistema>, acs: seq<Accion>)
    requires ConfigValida(cfg) && viejos != {}
    ensures Corrida(ss, acs, cfg) && |acs| == 2
    ensures EnBd(ss[0], u) == EnBd(ss[1], u) == viejos && EnBd(ss[2], u) == nuevos
    ensures ss[0].ahora == ss[1].ahora == ss[2].ahora == 0
    ensures u in ss[2].redis && ss[2].redis[u] == Entrada(viejos, cfg.ttlRedis) && LocalDe(ss[2], 1) == map[]
  {
    var s0: Sistema := Sistema(map[u := viejos], map[], map[], 0);
    AlConsultar(s0, 0, u, cfg);
    AlReponer(s0, Consulta(0, u, ""), cfg, u);
    var s1 := Aplicar(s0, Consulta(0, u, ""), cfg);
    ss, acs := Prolongar([s0], [], Consulta(0, u, ""), s1, cfg);
    ss, acs := Prolongar(ss, acs, Cambia(u, nuevos, false), s1.(bd := s1.bd[u := nuevos]), cfg);
  }

  lemma EsperaYCopia(ss: seq<Sistema>, acs: seq<Accion>, cfg: Config, u: string, t: nat)
    returns (ss': seq<Sistema>, acs': seq<Accion>, s: Sistema, s': Sistema)
    requires Corrida(ss, acs, cfg) && ConfigValida(cfg) && LocalDe(ss[|acs|], 1) == map[] && ss[|acs|].ahora <= t
    requires Vive(ss[|acs|].redis, u, t) && ss[|acs|].redis[u].valor != {}
    ensures Corrida(ss', acs', cfg) && ss' == ss + [s, s'] && |acs'| == |acs| + 2
    ensures s.bd == s'.bd == ss[|acs|].bd && s.ahora == s'.ahora == t
    ensures LocalDe(s', 1) == map[u := EntradaLocal(ss[|acs|].redis[u].valor, t)]
  {
    s := ss[|acs|].(ahora := t);
    ss', acs' := Prolongar(ss, acs, Pasa(t - ss[|acs|].ahora), s, cfg);
    AlCopiar(s, 1, u, cfg);
    s' := Aplicar(s, Consulta(1, u, ""), cfg);
    ss', acs' := Prolongar(ss', acs', Consulta(1, u, ""), s', cfg);
  }

  lemma HastaServir(cfg: Config, u: string, viejos: set<string>, nuevos: set<string>)
    returns (ss: seq<Sistema>, acs: seq<Accion>)
    requires ConfigValida(cfg) && viejos != {}
    ensures Corrida(ss, acs, cfg) && |acs| == 6 && ConsultaDe(acs[5], u)
    ensures EnBd(ss[2], u) == EnBd(ss[3], u) == EnBd(ss[4], u) == EnBd(ss[5], u) == nuevos
    ensures ss[0].ahora == ss[1].ahora == 0 && ss[5].ahora == cfg.ttlRedis - 1 + cfg.ttlLocal
    ensures Resultado(ss[5], acs[5], cfg).permisos == viejos
  {
    ss, acs := HastaElCambio(cfg, u, viejos, nuevos);
    var s3, s4;
    ss, acs, s3, s4 := EsperaYCopia(ss, acs, cfg, u, cfg.ttlRedis - 1);
    var s5 := s4.(ahora := s4.ahora + cfg.ttlLocal);
    ss, acs := Prolongar(ss, acs, Pasa(cfg.ttlLocal), s5, cfg);
    AlServir(s5, 1, u, cfg);
    ss, acs := Prolongar(ss, acs, Consulta(1, u, ""), Aplicar(s5, Consulta(1, u, ""), cfg), cfg);
  }

  /** The bound on staleness is attained in every configuration: some run answers with permissions that the database
      last held one tick less than both ttls ago. */
  lemma AntiguedadAlcanzada(cfg: Config, u: string, viejos: set<string>, nuevos: set<string>)
    returns (ss: seq<Sistema>, acs: seq<Accion>, i: nat)
    requires ConfigValida(cfg) && viejos != {} && nuevos != viejos
    ensures Corrida(ss, acs, cfg) && i < |acs| && ConsultaDe(acs[i], u)
    ensures Resultado(ss[i], acs[i], cfg).permisos == viejos
    ensures forall k :: 0 <= k <= i && EnBd(ss[k], u) == viejos ==>
      ss[i].ahora == ss[k].ahora + cfg.ttlLocal + cfg.ttlRedis - 1
  {
    ss, acs := HastaServir(cfg, u, viejos, nuevos);
    i := 5;
    forall k | 0 <= k <= 5 && EnBd(ss[k], u) == viejos ensures ss[k].ahora == 0 {
      assert k != 2 && k != 3 && k != 4 && k != 5;
    }
  }

  /** What one lookup answers and leaves in Redis, spelled out: the worker's own entry up to the local ttl, else what
      Redis holds, else the database, whose answer goes into Redis for its ttl unless it is empty. */
  lemma ConsultaEnClaro(l: Local, redis: Almacen<set<string>>, bd: set<string>, u: string, ahora: nat, v: string,
                        cfg: Config)
    requires ConfigValida(cfg)
    ensures var r := Consultar(l, redis, bd, u, ahora, v, cfg);
      var sirve := u in l && ahora <= l[u].ts + cfg.ttlLocal;
      var hay := u in redis && (redis[u].fija || ahora < redis[u].expira) && redis[u].valor != {};
      && r.permisos == (if sirve then l[u].permisos else if hay then redis[u].valor else bd)
      && r.redis == (if sirve || hay || bd == {} then redis
                     else redis[u := Entrada(bd, ahora + cfg.ttlRedis, false)])
  {
    ConsultaResponde(l, redis, bd, u, ahora, v, cfg);
    ConsultaEscribeRedis(l, redis, bd, u, ahora, v, cfg);
    if !(Vive(redis, u, ahora) && redis[u].valor != {}) { SaddEnVacia(redis, u, bd, cfg.ttlRedis, ahora); }
  }

  lemma SaddEnVacia(redis: Almacen<set<string>>, u: string, p: set<string>, ttl: nat, ahora: nat)
    requires ttl > 0 && !(Vive(redis, u, ahora) && redis[u].valor != {})
    ensures TrasSadd(redis, u, p, ttl, ahora) == redis[u := Entrada(p, ahora + ttl, false)]
  {
    assert {} + p == p;
  }

  lemma ConsultaEscribeLocal(l: Local, redis: Almacen<set<string>>, bd: set<string>, u: string, ahora: nat, v: string,
                             cfg: Config)
    ensures var r, l' := Consultar(l, redis, bd, u, ahora, v, cfg), TrasLocalGet(l, u, ahora, cfg);
      r.local == if Rellena(l, redis, bd, u, ahora, cfg) then TrasLocalSet(l', u, r.permisos, ahora, v, cfg) else l'
  {
  }

  lemma TrasLocalSetEs(l: Local, u: string, p: set<string>, ahora: nat, v: string, cfg: Config)
    ensures TrasLocalSet(l, u, p, ahora, v, cfg)
         == (if |l| < cfg.maximo then l else l - {v})[u := EntradaLocal(p, ahora)]
  {
  }

  /** And in the worker's map: an entry that served stays as it is; one that did not gives way to what was found, dated
      now, at the price of the victim if the map is full, or to nothing if nothing was. */
  lemma ConsultaGuardaLocal(l: Local, redis: Almacen<set<string>>, bd: set<string>, u: string, ahora: nat, v: string,
                            cfg: Config)
    ensures var r := Consultar(l, redis, bd, u, ahora, v, cfg);
      r.local == if u in l && ahora <= l[u].ts + cfg.ttlLocal then l
                 else if r.permisos == {} then l - {u}
                 else (if |l - {u}| < cfg.maximo then l - {u} else l - {u} - {v})[u := EntradaLocal(r.permisos, ahora)]
  {
    var p := Consultar(l, redis, bd, u, ahora, v, cfg).permisos;
    ConsultaResponde(l, redis, bd, u, ahora, v, cfg);
    ConsultaEscribeLocal(l, redis, bd, u, ahora, v, cfg);
    TrasLocalSetEs(l - {u}, u, p, ahora, v, cfg);
  }

  /** What a lookup pushes out of a worker's map, besides an entry of the same user, is an oldest entry of a full
      map. */
  lemma DesalojaLaMasVieja(ss: seq<Sistema>, acs: seq<Accion>, cfg: Config, i: nat, u: string)
    requires Corrida(ss, acs, cfg) && ConfigValida(cfg) && i < |acs| && acs[i].Consulta? && u != acs[i].u
    requires u in LocalDe(ss[i], acs[i].w) && u !in LocalDe(ss[i + 1], acs[i].w)
    ensures var l := LocalDe(ss[i], acs[i].w);
      |l| >= cfg.maximo && forall k :: k in l && k != acs[i].u ==> l[u].ts <= l[k].ts
  {
    assert Da(ss, acs, cfg, i);
    var s, a := ss[i], acs[i];
    var l := LocalDe(s, a.w);
    ConsultaEscribeLocal(l, s.redis, EnBd(s, a.u), a.u, s.ahora, a.victima, cfg);
    TrasLocalSetEs(TrasLocalGet(l, a.u, s.ahora, cfg), a.u, Resultado(s, a, cfg).permisos, s.ahora, a.victima, cfg);
    MenosClaves(l, a.u);
    var l' := TrasLocalGet(l, a.u, s.ahora, cfg);
    assert ss[i + 1].locales[a.w] == Resultado(s, a, cfg).local;
    assert u in l' && |l'| <= |l|;
    assert Rellena(l, s.redis, EnBd(s, a.u), a.u, s.ahora, cfg);
    assert |l'| >= cfg.maximo && a.victima == u;
    assert forall k :: k in l && k != a.u ==> k in l' && l'[k] == l[k];
  }

  /** No worker's local map ever exceeds its maximum. */
  lemma {:induction false} LocalesAcotados(ss: seq<Sistema>, acs: seq<Accion>, cfg: Config, i: nat, w: nat)
    requires Corrida(ss, acs, cfg) && ConfigValida(cfg) && i < |ss|
    ensures |LocalDe(ss[i], w)| <= cfg.maximo
  {
    if i > 0 {
      LocalesAcotados(ss, acs, cfg, i - 1, w);
      var s, a := ss[i - 1], acs[i - 1];
      assert Da(ss, acs, cfg, i - 1);
      if a.Consulta? && a.w == w {
        var l := LocalDe(s, w);
        var l' := TrasLocalGet(l, a.u, s.ahora, cfg);
        MenosClaves(l, a.u);
        MenosClaves(l', a.victima);
        if Rellena(l, s.redis, EnBd(s, a.u), a.u, s.ahora, cfg) {
          UnaClaveMas(l', a.u, Resultado(s, a, cfg).permisos, s.ahora, a.victima, cfg);
        }
      }
    }
  }

  lemma MenosClaves(l: Local, u: string)
    ensures |l - {u}| == if u in l then |l| - 1 else |l|
  {
    assert (l - {u}).Keys == l.Keys - {u};
    if u !in l { assert l - {u} == l; }
  }

  lemma UnaClaveMas(l: Local, u: string, p: set<string>, ahora: nat, v: string, cfg: Config)
    requires ConfigValida(cfg) && |l| <= cfg.maximo && VictimaValida(l, v, cfg)
    ensures |TrasLocalSet(l, u, p, ahora, v, cfg)| <= cfg.maximo
  {
    MenosClaves(l, v);
    ConUna(if |l| >= cfg.maximo then l - {v} else l, u, EntradaLocal(p, ahora));
  }

  lemma ConUna(l: Local, u: string, e: EntradaLocal)
    ensures |l[u := e]| <= |l| + 1
  {
    assert l[u := e].Keys == l.Keys + {u};
  }
}
