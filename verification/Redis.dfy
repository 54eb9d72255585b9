/** The expiring key-value store behind `redis_service.py`.

    The server state is a map from keys to values with a deadline; a key lives strictly before its
    deadline, and a dead key is no different from an absent one; a key may also have no deadline at all. The pure
    functions are the meaning of one Redis command (or of one MULTI transaction); `RedisService` executes them
    on a shared store.
    Key families never share a prefix, so each family is its own store with its own value type. */
module Redis {
  import opened Opciones

  /** An entry that is `fija` has no deadline, whatever `expira` says. */
  datatype Entrada<+V> = Entrada(valor: V, expira: nat, fija: bool := false)

  type Almacen<V> = map<string, Entrada<V>>

  predicate Vive<V>(a: Almacen<V>, clave: string, ahora: nat) {
    clave in a && (a[clave].fija || ahora < a[clave].expira)
  }

  function Leer<V>(a: Almacen<V>, clave: string, ahora: nat): Opcion<V> {
    if Vive(a, clave, ahora) then Algo(a[clave].valor) else Nada
  }

  function TrasSet<V>(a: Almacen<V>, clave: string, valor: V, ttl: nat, ahora: nat): Almacen<V> {
    a[clave := Entrada(valor, ahora + ttl)]
  }

  function TrasDelete<V>(a: Almacen<V>, clave: string): Almacen<V> {
    a - {clave}
  }

  function TrasSetNx<V>(a: Almacen<V>, clave: string, valor: V, ttl: nat, ahora: nat): Almacen<V> {
    if Vive(a, clave, ahora) then a else TrasSet(a, clave, valor, ttl, ahora)
  }

  /** MULTI; SET clave 0 NX EX ttl; INCR clave; EXEC. INCR keeps the deadline. */
  function TrasIncr(a: Almacen<int>, clave: string, ttl: nat, ahora: nat): Almacen<int> {
    var b := TrasSetNx(a, clave, 0, ttl, ahora);
    b[clave := b[clave].(valor := b[clave].valor + 1)]
  }

  /** MULTI; SADD clave valores; EXPIRE clave ttl; EXEC. Without a ttl there is no EXPIRE: a living key keeps
      the deadline it has, or has not, and a new one gets none. */
  function TrasSadd(a: Almacen<set<string>>, clave: string, valores: set<string>, ttl: nat, ahora: nat):
    Almacen<set<string>> {
    var todos := (if Vive(a, clave, ahora) then a[clave].valor else {}) + valores;
    if ttl > 0 then a[clave := Entrada(todos, ahora + ttl)]
    else if Vive(a, clave, ahora) then a[clave := a[clave].(valor := todos)]
    else a[clave := Entrada(todos, ahora, true)]
  }

  /** What TTL answers: seconds left, -1 for a key without deadline, -2 for one that is not there. */
  function Restante<V>(a: Almacen<V>, clave: string, ahora: nat): int {
    if !Vive(a, clave, ahora) then -2 else if a[clave].fija then -1 else a[clave].expira - ahora
  }

  class RedisService<V> {
    var datos: Almacen<V>
    var ahora: nat

    constructor ()
      ensures datos == map[] && ahora == 0
    {
      datos := map[];
      ahora := 0;
    }

    /** The environment's step: time passes. */
    method Pasar(ticks: nat)
      modifies this
      ensures ahora == old(ahora) + ticks && datos == old(datos)
    {
      ahora := ahora + ticks;
    }

    method Set(clave: string, valor: V, ttl: nat)
      requires ttl > 0
      modifies this
      ensures datos == TrasSet(old(datos), clave, valor, ttl, ahora) && ahora == old(ahora)
      ensures datos == old(datos)[clave := Entrada(valor, ahora + ttl, false)]
    {
      datos := datos[clave := Entrada(valor, ahora + ttl)];
    }

    method Get(clave: string) returns (valor: Opcion<V>)
      ensures valor == Leer(datos, clave, ahora)
      ensures valor == if clave in datos && (datos[clave].fija || ahora < datos[clave].expira)
                       then Algo(datos[clave].valor) else Nada
    {
      if Vive(datos, clave, ahora) { return Algo(datos[clave].valor); }
      return Nada;
    }

    method Exists(clave: string) returns (existe: bool)
      ensures existe <==> clave in datos && (datos[clave].fija || ahora < datos[clave].expira)
    {
      return Vive(datos, clave, ahora);
    }

    method Delete(clave: string)
      modifies this
      ensures datos == TrasDelete(old(datos), clave) && ahora == old(ahora)
      ensures clave !in datos && forall k :: k in old(datos) && k != clave ==> k in datos && datos[k] == old(datos)[k]
      ensures datos.Keys <= old(datos).Keys
    {
      datos := datos - {clave};
    }

    method SetNx(clave: string, valor: V, ttl: nat) returns (puesto: bool)
      requires ttl > 0
      modifies this
      ensures puesto <==> !Vive(old(datos), clave, old(ahora))
      ensures datos == TrasSetNx(old(datos), clave, valor, ttl, ahora) && ahora == old(ahora)
      ensures datos == if puesto then old(datos)[clave := Entrada(valor, ahora + ttl, false)] else old(datos)
    {
      puesto := !Vive(datos, clave, ahora);
      if puesto {
        datos := datos[clave := Entrada(valor, ahora + ttl)];
      }
    }

    method Ttl(clave: string) returns (segundos: int)
      ensures segundos == Restante(datos, clave, ahora)
      ensures clave in datos && !datos[clave].fija && ahora < datos[clave].expira ==>
        segundos == datos[clave].expira - ahora
      ensures clave in datos && datos[clave].fija ==> segundos == -1
      ensures clave !in datos || (!datos[clave].fija && datos[clave].expira <= ahora) ==> segundos == -2
    {
      if !Vive(datos, clave, ahora) { return -2; }
      if datos[clave].fija { return -1; }
      return datos[clave].expira - ahora;
    }
  }

  /** `RedisService.incr`: the deadline is fixed by the first call of a window. */
  method EjecutarIncr(cache: RedisService<int>, clave: string, ttl: nat) returns (n: int)
    requires ttl > 0
    modifies cache
    ensures cache.datos == TrasIncr(old(cache.datos), clave, ttl, cache.ahora) && cache.ahora == old(cache.ahora)
    ensures n == cache.datos[clave].valor
    ensures var a := old(cache.datos);
      cache.datos == a[clave := if clave in a && (a[clave].fija || cache.ahora < a[clave].expira)
                                then a[clave].(valor := a[clave].valor + 1)
                                else Entrada(1, cache.ahora + ttl, false)]
  {
    var _ := cache.SetNx(clave, 0, ttl);
    n := cache.datos[clave].valor + 1;
    cache.datos := cache.datos[clave := cache.datos[clave].(valor := n)];
  }

  /** `RedisService.sadd`. SADD takes at least one member. */
  method EjecutarSadd(cache: RedisService<set<string>>, clave: string, valores: set<string>, ttl: nat)
    requires valores != {}
    modifies cache
    ensures cache.datos == TrasSadd(old(cache.datos), clave, valores, ttl, cache.ahora)
    ensures cache.ahora == old(cache.ahora)
    ensures var a := old(cache.datos);
      var vive := clave in a && (a[clave].fija || cache.ahora < a[clave].expira);
      && clave in cache.datos && cache.datos == a[clave := cache.datos[clave]]
      && cache.datos[clave].valor == (if vive then a[clave].valor + valores else valores)
      && (ttl > 0 ==> !cache.datos[clave].fija && cache.datos[clave].expira == cache.ahora + ttl)
      && (ttl == 0 && vive ==> cache.datos[clave].fija == a[clave].fija && cache.datos[clave].expira == a[clave].expira)
      && (ttl == 0 && !vive ==> cache.datos[clave].fija)
  {
    if !Vive(cache.datos, clave, cache.ahora) {
      assert {} + valores == valores;
      cache.datos := cache.datos[clave := Entrada(valores, cache.ahora, true)];
    } else {
      cache.datos := cache.datos[clave := cache.datos[clave].(valor := cache.datos[clave].valor + valores)];
    }
    if ttl > 0 {
      cache.datos := cache.datos[clave := Entrada(cache.datos[clave].valor, cache.ahora + ttl)];
    }
  }
}
