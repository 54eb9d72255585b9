/** The inventory ledger of `inventarios.py`: a stock table kept beside an append-only movement log. */
module Inventario {
  import opened Opciones
  import opened Conjuntos
  import opened Cadena

  /** PostgreSQL INTEGER. */
  const INT4_MAX := 0x7fff_ffff

  type Lugar = (string, string)

  type Existencias = map<Lugar, int>

  /** The request body. */
  datatype Pedido = Pedido(item: string, tipo: Tipo, destino: string, cantidad: int, origen: Opcion<string>,
                           notas: Opcion<string>)

  datatype Rechazo =
    | Validacion | IngresoConOrigen | TrasladoSinOrigen | StockInsuficiente(disponibles: int) | SinStock
    | ItemDesconocido | FueraDeRango

  datatype Libro = Libro(stock: Existencias, movs: seq<Movimiento>)

  // ---------------------------------------------------------------- one request

  function ActualizarStock(stock: Existencias, item: string, lugar: string, delta: int):
    Resultado<Existencias, Rechazo> {
    if (item, lugar) in stock then
      var nueva := stock[(item, lugar)] + delta;
      if nueva < 0 then Mal(StockInsuficiente(stock[(item, lugar)])) else Bien(stock[(item, lugar) := nueva])
    else if delta < 0 then Mal(SinStock)
    else Bien(stock[(item, lugar) := delta])
  }

  /** The item's movement with the greatest creado_en. */
  function Ultimo(movs: seq<Movimiento>, item: string): Opcion<Movimiento> {
    if movs == [] then Nada
    else
      var m, antes := movs[|movs| - 1], Ultimo(movs[..|movs| - 1], item);
      if m.item == item && (antes.Nada? || antes.valor.creadoEn <= m.creadoEn) then Algo(m) else antes
  }

  function Asiento(movs: seq<Movimiento>, p: Pedido, id: string, ahora: nat, h: Huella): Movimiento {
    var ultimo := Ultimo(movs, p.item);
    var previo := if ultimo.Algo? then ultimo.valor.hashRegistro else "";
    var m := Movimiento(id, p.item, p.tipo, p.origen, p.destino, p.cantidad, p.notas, ahora,
                        if previo == "" then Nada else Algo(previo), "");
    m.(hashRegistro := h.sha(Datos(m, h)))
  }

  function Mover(stock: Existencias, p: Pedido): Resultado<Existencias, Rechazo> {
    match p.tipo
    case Ingreso => ActualizarStock(stock, p.item, p.destino, p.cantidad)
    case Traslado =>
      match ActualizarStock(stock, p.item, OVacio(p.origen), -p.cantidad)
      case Mal(e) => Mal(e)
      case Bien(s) => ActualizarStock(s, p.item, p.destino, p.cantidad)
  }

  /** The checks made before anything is written. */
  function Revisar(p: Pedido): Opcion<Rechazo> {
    if p.destino == "" || p.cantidad <= 0 then Algo(Validacion)
    else if p.tipo == Ingreso && OVacio(p.origen) != "" then Algo(IngresoConOrigen)
    else if p.tipo == Traslado && OVacio(p.origen) == "" then Algo(TrasladoSinOrigen)
    else Nada
  }

  /** What the database refuses when the session is flushed: an item that is not in the catalogue, a number
      that does not fit. */
  function Guardar(stock: Existencias, p: Pedido, insumos: set<string>): Opcion<Rechazo> {
    if p.item !in insumos then Algo(ItemDesconocido)
    else if p.cantidad > INT4_MAX || ((p.item, p.destino) in stock && stock[(p.item, p.destino)] > INT4_MAX)
    then Algo(FueraDeRango)
    else Nada
  }

  function Registrar(l: Libro, p: Pedido, id: string, ahora: nat, h: Huella, insumos: set<string>):
    Resultado<Libro, Rechazo> {
    if Revisar(p).Algo? then Mal(Revisar(p).valor)
    else
      match Mover(l.stock, p)
      case Mal(e) => Mal(e)
      case Bien(stock) =>
        if Guardar(stock, p, insumos).Algo? then Mal(Guardar(stock, p, insumos).valor)
        else Bien(Libro(stock, l.movs + [Asiento(l.movs, p, id, ahora, h)]))
  }

  class Inventario {
    var stock: Existencias
    var movs: seq<Movimiento>
    const insumos: set<string>
    const h: Huella

    constructor (insumos: set<string>, h: Huella)
      ensures Vista() == Libro(map[], []) && this.insumos == insumos && this.h == h
    {
      stock, movs := map[], [];
      this.insumos := insumos;
      this.h := h;
    }

    ghost function Vista(): Libro
      reads this
    {
      Libro(stock, movs)
    }

    /** `_actualizar_stock`. */
    method ActualizarFila(item: string, lugar: string, delta: int) returns (error: Opcion<Rechazo>)
      modifies this
      ensures movs == old(movs)
      ensures match ActualizarStock(old(stock), item, lugar, delta)
              case Bien(s) => error == Nada && stock == s
              case Mal(e) => error == Algo(e) && stock == old(stock)
    {
      if (item, lugar) in stock {
        var nueva := stock[(item, lugar)] + delta;
        if nueva < 0 { return Algo(StockInsuficiente(stock[(item, lugar)])); }
        stock := stock[(item, lugar) := nueva];
      } else {
        if delta < 0 { return Algo(SinStock); }
        stock := stock[(item, lugar) := delta];
      }
      return Nada;
    }

    /** `registrar_movimiento` inside its session: an error rolls back whatever the request had written. */
    method RegistrarMovimiento(p: Pedido, id: string, ahora: nat) returns (error: Opcion<Rechazo>)
      modifies this
      ensures match Registrar(old(Vista()), p, id, ahora, h, insumos)
              case Bien(l) => error == Nada && Vista() == l
              case Mal(e) => error == Algo(e) && Vista() == old(Vista())
    {
      error := Revisar(p);
      if error.Algo? { return; }
      var stockPrevio, movsPrevios := stock, movs;
      movs := movs + [Asiento(movs, p, id, ahora, h)];
      if p.tipo == Ingreso {
        error := ActualizarFila(p.item, p.destino, p.cantidad);
      } else {
        error := ActualizarFila(p.item, OVacio(p.origen), -p.cantidad);
        if error.Nada? {
          error := ActualizarFila(p.item, p.destino, p.cantidad);
        }
      }
      if error.Nada? {
        error := Guardar(stock, p, insumos);
      }
      if error.Algo? {
        stock, movs := stockPrevio, movsPrevios;
      }
    }
  }

  // ---------------------------------------------------------------- runs

  datatype Evento = Evento(pedido: Pedido, id: string, ahora: nat)

  /** The ledger after the events, refused ones included. */
  function Correr(es: seq<Evento>, h: Huella, insumos: set<string>): Libro {
    if es == [] then Libro(map[], [])
    else
      var l, e := Correr(es[..|es| - 1], h, insumos), es[|es| - 1];
      match Registrar(l, e.pedido, e.id, e.ahora, h, insumos)
      case Bien(l') => l'
      case Mal(_) => l
  }

  predicate RelojEstricto(es: seq<Evento>) {
    forall i, j :: 0 <= i < j < |es| ==> es[i].ahora < es[j].ahora
  }

  // ---------------------------------------------------------------- stock against log

  /** What the log brings into a place, and takes out of it. */
  function Entradas(movs: seq<Movimiento>, item: string, lugar: string): int {
    if movs == [] then 0
    else
      var m := movs[|movs| - 1];
      Entradas(movs[..|movs| - 1], item, lugar) + (if m.item == item && m.destino == lugar then m.cantidad else 0)
  }

  function Salidas(movs: seq<Movimiento>, item: string, lugar: string): int {
    if movs == [] then 0
    else
      var m := movs[|movs| - 1];
      Salidas(movs[..|movs| - 1], item, lugar)
        + (if m.item == item && m.tipo == Traslado && OVacio(m.origen) == lugar then m.cantidad else 0)
  }

  function Ingresos(movs: seq<Movimiento>, item: string): int {
    if movs == [] then 0
    else
      var m := movs[|movs| - 1];
      Ingresos(movs[..|movs| - 1], item) + (if m.item == item && m.tipo == Ingreso then m.cantidad else 0)
  }

  function Cantidad(stock: Existencias, item: string, lugar: string): int {
    if (item, lugar) in stock then stock[(item, lugar)] else 0
  }

  ghost predicate Cuadra(l: Libro) {
    && (forall item, lugar ::
          Cantidad(l.stock, item, lugar) == Entradas(l.movs, item, lugar) - Salidas(l.movs, item, lugar))
    && (forall k :: k in l.stock ==> 0 <= l.stock[k] <= INT4_MAX)
  }

  lemma MoverCuadra(stock: Existencias, p: Pedido, item: string, lugar: string)
    requires Mover(stock, p).Bien?
    ensures Cantidad(Mover(stock, p).valor, item, lugar)
         == Cantidad(stock, item, lugar)
            + (if p.item == item && p.destino == lugar then p.cantidad else 0)
            - (if p.item == item && p.tipo == Traslado && OVacio(p.origen) == lugar then p.cantidad else 0)
  {
  }

  lemma RegistrarCuadra(l: Libro, p: Pedido, id: string, ahora: nat, h: Huella, insumos: set<string>)
    requires Cuadra(l) && Registrar(l, p, id, ahora, h, insumos).Bien?
    ensures Cuadra(Registrar(l, p, id, ahora, h, insumos).valor)
  {
    var l' := Registrar(l, p, id, ahora, h, insumos).valor;
    assert l'.movs[..|l'.movs| - 1] == l.movs;
    forall item, lugar
      ensures Cantidad(l'.stock, item, lugar) == Entradas(l'.movs, item, lugar) - Salidas(l'.movs, item, lugar)
    {
      MoverCuadra(l.stock, p, item, lugar);
    }
  }

  /** After every run, each place holds exactly what the log brought in minus what it took out, and never
      less than nothing. */
  lemma {:induction false} StockEsReplay(es: seq<Evento>, h: Huella, insumos: set<string>)
    ensures Cuadra(Correr(es, h, insumos))
  {
    if es != [] {
      StockEsReplay(es[..|es| - 1], h, insumos);
      var l, e := Correr(es[..|es| - 1], h, insumos), es[|es| - 1];
      if Registrar(l, e.pedido, e.id, e.ahora, h, insumos).Bien? {
        RegistrarCuadra(l, e.pedido, e.id, e.ahora, h, insumos);
      }
    }
  }

  /** A well-formed transfer of a known item is accepted exactly when the log says its origin holds enough
      and what arrives still fits. */
  lemma TrasladoAceptadoSii(es: seq<Evento>, p: Pedido, id: string, ahora: nat, h: Huella, insumos: set<string>)
    requires Revisar(p).Nada? && p.tipo == Traslado && p.item in insumos
    ensures var l := Correr(es, h, insumos);
      var saldo := (lugar: string) => Entradas(l.movs, p.item, lugar) - Salidas(l.movs, p.item, lugar);
      Registrar(l, p, id, ahora, h, insumos).Bien? <==>
        && p.cantidad <= saldo(OVacio(p.origen))
        && (OVacio(p.origen) == p.destino || saldo(p.destino) + p.cantidad <= INT4_MAX)
  {
    StockEsReplay(es, h, insumos);
    var l := Correr(es, h, insumos);
    var o := OVacio(p.origen);
    assert Cantidad(l.stock, p.item, o) == Entradas(l.movs, p.item, o) - Salidas(l.movs, p.item, o);
    assert Cantidad(l.stock, p.item, p.destino)
        == Entradas(l.movs, p.item, p.destino) - Salidas(l.movs, p.item, p.destino);
  }

  // ---------------------------------------------------------------- every request of every run

  /** What the log leaves in a place. */
  function Saldo(movs: seq<Movimiento>, item: string, lugar: string): int {
    Entradas(movs, item, lugar) - Salidas(movs, item, lugar)
  }

  lemma SaldoEsCantidad(es: seq<Evento>, h: Huella, insumos: set<string>, item: string, lugar: string)
    ensures var l := Correr(es, h, insumos);
      && Saldo(l.movs, item, lugar) == Cantidad(l.stock, item, lugar)
      && 0 <= Cantidad(l.stock, item, lugar) <= 2147483647
  {
    StockEsReplay(es, h, insumos);
    var l := Correr(es, h, insumos);
    assert Cantidad(l.stock, item, lugar) == Entradas(l.movs, item, lugar) - Salidas(l.movs, item, lugar);
  }

  /** In every run a request is accepted if and only if it names a place and a positive number that fits, an arrival no
      origin and a transfer one, the item is in the catalogue, the log leaves enough at the origin, and what arrives
      fits beside what the log leaves at the destination. */
  lemma PedidoAceptadoSii(es: seq<Evento>, p: Pedido, id: string, ahora: nat, h: Huella, insumos: set<string>)
    ensures var movs := Correr(es, h, insumos).movs;
      var o := if p.origen.Nada? then "" else p.origen.valor;
      Registrar(Correr(es, h, insumos), p, id, ahora, h, insumos).Bien? <==>
        && p.destino != "" && 0 < p.cantidad <= 2147483647 && p.item in insumos
        && (match p.tipo
            case Ingreso => o == "" && Saldo(movs, p.item, p.destino) + p.cantidad <= 2147483647
            case Traslado =>
              && o != "" && p.cantidad <= Saldo(movs, p.item, o)
              && (o == p.destino || Saldo(movs, p.item, p.destino) + p.cantidad <= 2147483647))
  {
    SaldoEsCantidad(es, h, insumos, p.item, OVacio(p.origen));
    SaldoEsCantidad(es, h, insumos, p.item, p.destino);
  }

  /** And what each refusal says: the first of these that is the case. */
  lemma RechazoDice(es: seq<Evento>, p: Pedido, id: string, ahora: nat, h: Huella, insumos: set<string>)
    requires Registrar(Correr(es, h, insumos), p, id, ahora, h, insumos).Mal?
    ensures var l := Correr(es, h, insumos);
      var o := if p.origen.Nada? then "" else p.origen.valor;
      var saldo := Saldo(l.movs, p.item, o);
      Registrar(l, p, id, ahora, h, insumos).error
        == if p.destino == "" || p.cantidad <= 0 then Validacion
           else if p.tipo == Ingreso && o != "" then IngresoConOrigen
           else if p.tipo == Traslado && o == "" then TrasladoSinOrigen
           else if p.tipo == Traslado && (p.item, o) !in l.stock then SinStock
           else if p.tipo == Traslado && saldo < p.cantidad then StockInsuficiente(saldo)
           else if p.item !in insumos then ItemDesconocido
           else FueraDeRango
  {
    SaldoEsCantidad(es, h, insumos, p.item, OVacio(p.origen));
    SaldoEsCantidad(es, h, insumos, p.item, p.destino);
  }

  /** An accepted request adds one movement to the end of the log, and it says what the request said. */
  lemma AsientoDice(l: Libro, p: Pedido, id: string, ahora: nat, h: Huella, insumos: set<string>)
    requires Registrar(l, p, id, ahora, h, insumos).Bien?
    ensures var movs := Registrar(l, p, id, ahora, h, insumos).valor.movs;
      && |movs| == |l.movs| + 1 && movs[..|l.movs|] == l.movs
      && var m := movs[|l.movs|];
         && m.id == id && m.item == p.item && m.tipo == p.tipo && m.origen == p.origen && m.destino == p.destino
         && m.cantidad == p.cantidad && m.notas == p.notas && m.creadoEn == ahora
  {
  }

  /** Every movement of every run is one that the chain's results are about: its amount is positive and fits, its
      destination is named, and it has an origin exactly if it is a transfer. */
  lemma {:induction false} LogRegistrable(es: seq<Evento>, h: Huella, insumos: set<string>)
    ensures forall i :: 0 <= i < |Correr(es, h, insumos).movs| ==>
      var m := Correr(es, h, insumos).movs[i];
      && Registrable(m) && 0 < m.cantidad <= 2147483647 && m.item in insumos && m.destino != ""
      && (m.tipo == Ingreso <==> m.origen.Nada? || m.origen.valor == "")
  {
    if es != [] {
      LogRegistrable(es[..|es| - 1], h, insumos);
      LogCrece(es, h, insumos);
      var resto, e := es[..|es| - 1], es[|es| - 1];
      PedidoAceptadoSii(resto, e.pedido, e.id, e.ahora, h, insumos);
      if Registrar(Correr(resto, h, insumos), e.pedido, e.id, e.ahora, h, insumos).Bien? {
        AsientoDice(Correr(resto, h, insumos), e.pedido, e.id, e.ahora, h, insumos);
      }
    }
  }

  // ---------------------------------------------------------------- totals over the places

  ghost function Suma(stock: Existencias, ks: set<Lugar>): int
    requires ks <= stock.Keys
  {
    if ks == {} then 0 else var k :| k in ks; stock[k] + Suma(stock, ks - {k})
  }

  lemma {:induction false} SumaSin(stock: Existencias, ks: set<Lugar>, k: Lugar)
    requires ks <= stock.Keys && k in ks
    ensures Suma(stock, ks) == stock[k] + Suma(stock, ks - {k})
    decreases ks
  {
    var j :| j in ks && Suma(stock, ks) == stock[j] + Suma(stock, ks - {j});
    if j != k {
      SumaSin(stock, ks - {j}, k);
      SumaSin(stock, ks - {k}, j);
      assert ks - {j} - {k} == ks - {k} - {j};
    }
  }

  lemma {:induction false} SumaIgual(a: Existencias, b: Existencias, ks: set<Lugar>)
    requires ks <= a.Keys && ks <= b.Keys && forall k :: k in ks ==> a[k] == b[k]
    ensures Suma(a, ks) == Suma(b, ks)
    decreases ks
  {
    if ks != {} {
      var k := Alguno(ks);
      SumaSin(a, ks, k);
      SumaSin(b, ks, k);
      SumaIgual(a, b, ks - {k});
    }
  }

  ghost function LugaresDe(stock: Existencias, item: string): set<Lugar> {
    set k | k in stock && k.0 == item
  }

  /** What the stock table holds of an item, over all places. */
  ghost function Total(stock: Existencias, item: string): int {
    Suma(stock, LugaresDe(stock, item))
  }

  lemma TotalTrasPoner(stock: Existencias, k: Lugar, v: int, item: string)
    ensures Total(stock[k := v], item)
         == Total(stock, item) + (if k.0 == item then v - Cantidad(stock, k.0, k.1) else 0)
  {
    var s' := stock[k := v];
    var a, b := LugaresDe(stock, item), LugaresDe(s', item);
    SumaIgual(stock, s', a - {k});
    if k.0 == item {
      assert b == (a - {k}) + {k} && b - {k} == a - {k};
      SumaSin(s', b, k);
      if k in stock { SumaSin(stock, a, k); } else { assert a - {k} == a; }
    } else {
      assert a == b && a - {k} == a;
    }
  }

  lemma TotalTrasActualizar(stock: Existencias, item: string, lugar: string, delta: int, otro: string)
    requires ActualizarStock(stock, item, lugar, delta).Bien?
    ensures Total(ActualizarStock(stock, item, lugar, delta).valor, otro)
         == Total(stock, otro) + (if otro == item then delta else 0)
  {
    var nueva := Cantidad(stock, item, lugar) + delta;
    TotalTrasPoner(stock, (item, lugar), nueva, otro);
  }

  /** A transfer, also one onto its own origin, preserves the item's total; an arrival adds to it. */
  lemma MoverConserva(stock: Existencias, p: Pedido, item: string)
    requires Mover(stock, p).Bien?
    ensures Total(Mover(stock, p).valor, item)
         == Total(stock, item) + (if p.item == item && p.tipo == Ingreso then p.cantidad else 0)
  {
    if p.tipo == Ingreso {
      TotalTrasActualizar(stock, p.item, p.destino, p.cantidad, item);
    } else {
      var s := ActualizarStock(stock, p.item, OVacio(p.origen), -p.cantidad).valor;
      TotalTrasActualizar(stock, p.item, OVacio(p.origen), -p.cantidad, item);
      TotalTrasActualizar(s, p.item, p.destino, p.cantidad, item);
    }
  }

  /** Over every run the item's total is the sum of its arrivals. */
  lemma {:induction false} TotalEsIngresos(es: seq<Evento>, h: Huella, insumos: set<string>, item: string)
    ensures Total(Correr(es, h, insumos).stock, item) == Ingresos(Correr(es, h, insumos).movs, item)
  {
    if es == [] {
      assert LugaresDe(map[], item) == {};
    } else {
      TotalEsIngresos(es[..|es| - 1], h, insumos, item);
      var l, e := Correr(es[..|es| - 1], h, insumos), es[|es| - 1];
      if Registrar(l, e.pedido, e.id, e.ahora, h, insumos).Bien? {
        MoverConserva(l.stock, e.pedido, item);
        var l' := Correr(es, h, insumos);
        assert l'.movs[..|l'.movs| - 1] == l.movs;
      }
    }
  }

  // ---------------------------------------------------------------- the log stays chained

  /** The movements of one item, in the order they were written. */
  function PorItem(movs: seq<Movimiento>, item: string): seq<Movimiento> {
    if movs == [] then []
    else
      var m := movs[|movs| - 1];
      PorItem(movs[..|movs| - 1], item) + (if m.item == item then [m] else [])
  }

  predicate Fechados(movs: seq<Movimiento>, ahora: nat) {
    forall i :: 0 <= i < |movs| ==> movs[i].creadoEn <= ahora
  }

  predicate FechasCrecen(movs: seq<Movimiento>) {
    forall i, j :: 0 <= i < j < |movs| ==> movs[i].creadoEn < movs[j].creadoEn
  }

  /** With growing timestamps the row the query finds is the end of the item's log. */
  lemma {:induction false} UltimoEsCola(movs: seq<Movimiento>, item: string)
    requires FechasCrecen(movs)
    ensures var l := PorItem(movs, item);
      if l == [] then Ultimo(movs, item) == Nada
      else Ultimo(movs, item) == Algo(l[|l| - 1]) && l[|l| - 1] in movs
  {
    if movs != [] {
      UltimoEsCola(movs[..|movs| - 1], item);
    }
  }

  lemma {:induction false} CorridaFechada(es: seq<Evento>, h: Huella, insumos: set<string>)
    requires RelojEstricto(es)
    ensures FechasCrecen(Correr(es, h, insumos).movs)
    ensures es != [] ==> Fechados(Correr(es, h, insumos).movs, es[|es| - 1].ahora)
    ensures es == [] ==> Correr(es, h, insumos).movs == []
  {
    if es != [] {
      var resto := es[..|es| - 1];
      CorridaFechada(resto, h, insumos);
      var l, e := Correr(resto, h, insumos), es[|es| - 1];
      assert resto != [] ==> resto[|resto| - 1].ahora < e.ahora;
      assert forall i :: 0 <= i < |l.movs| ==> l.movs[i].creadoEn < e.ahora;
    }
  }

  /** In every run with a strictly increasing clock each item's log is a chain: every hash recomputes and
      every movement names the one before it. */
  lemma {:induction false} LogSiempreEncadenado(es: seq<Evento>, h: Huella, insumos: set<string>, item: string)
    requires RelojEstricto(es) && Fiel(h)
    ensures Encadenada(PorItem(Correr(es, h, insumos).movs, item), h)
  {
    if es != [] {
      var resto, e := es[..|es| - 1], es[|es| - 1];
      LogSiempreEncadenado(resto, h, insumos, item);
      CorridaFechada(resto, h, insumos);
      AsientoMantiene(Correr(resto, h, insumos).movs, e.pedido, e.id, e.ahora, h, item);
      LogCrece(es, h, insumos);
    }
  }

  /** A request leaves the log as it is or adds its movement at the end. */
  lemma LogCrece(es: seq<Evento>, h: Huella, insumos: set<string>)
    requires es != []
    ensures var antes, e := Correr(es[..|es| - 1], h, insumos).movs, es[|es| - 1];
      || Correr(es, h, insumos).movs == antes
      || Correr(es, h, insumos).movs == antes + [Asiento(antes, e.pedido, e.id, e.ahora, h)]
  {
  }

  lemma PorItemUnoMas(movs: seq<Movimiento>, m: Movimiento, item: string)
    ensures PorItem(movs + [m], item) == PorItem(movs, item) + (if m.item == item then [m] else [])
  {
    assert (movs + [m])[..|movs|] == movs;
  }

  lemma AsientoMantiene(movs: seq<Movimiento>, p: Pedido, id: string, ahora: nat, h: Huella, item: string)
    requires Fiel(h) && FechasCrecen(movs) && Encadenada(PorItem(movs, item), h)
    ensures Encadenada(PorItem(movs + [Asiento(movs, p, id, ahora, h)], item), h)
  {
    AsientoEncadena(movs, p, id, ahora, h);
    UnEslabonMas(movs, Asiento(movs, p, id, ahora, h), h, item);
  }

  lemma UnEslabonMas(movs: seq<Movimiento>, m: Movimiento, h: Huella, item: string)
    requires Encadenada(PorItem(movs, item), h)
    requires m.hashRegistro == h.sha(Datos(m, h)) && OVacio(m.hashAnterior) == Cola(PorItem(movs, m.item))
    ensures Encadenada(PorItem(movs + [m], item), h)
  {
    PorItemUnoMas(movs, m, item);
    if m.item == item {
      ColaMasUno(PorItem(movs, item), m, h);
    } else {
      assert PorItem(movs, item) + [] == PorItem(movs, item);
    }
  }

  lemma AsientoEncadena(movs: seq<Movimiento>, p: Pedido, id: string, ahora: nat, h: Huella)
    requires FechasCrecen(movs)
    ensures var m := Asiento(movs, p, id, ahora, h);
      m.hashRegistro == h.sha(Datos(m, h)) && OVacio(m.hashAnterior) == Cola(PorItem(movs, p.item))
  {
    UltimoEsCola(movs, p.item);
  }

  /** Two ledgers, whatever their runs, whose last movements of an item carry the same hash hold the same
      history of that item, as long as no origin contains '|'. */
  lemma HistoriaInalterable(es: seq<Evento>, fs: seq<Evento>, h: Huella, insumos: set<string>, item: string)
    requires RelojEstricto(es) && RelojEstricto(fs) && Fiel(h)
    requires OrigenesSinBarra(PorItem(Correr(es, h, insumos).movs, item))
    requires OrigenesSinBarra(PorItem(Correr(fs, h, insumos).movs, item))
    requires Cola(PorItem(Correr(es, h, insumos).movs, item)) == Cola(PorItem(Correr(fs, h, insumos).movs, item))
    ensures MismosMovimientos(PorItem(Correr(es, h, insumos).movs, item), PorItem(Correr(fs, h, insumos).movs, item))
  {
    LogSiempreEncadenado(es, h, insumos, item);
    LogSiempreEncadenado(fs, h, insumos, item);
    CadenaFijaHistoria(PorItem(Correr(es, h, insumos).movs, item), PorItem(Correr(fs, h, insumos).movs, item), h);
  }

  /** A transfer and the one that divides the same places elsewhere, accepted by the same ledger, leave the item's
      log with the same last hash and a different last movement. */
  lemma MismaColaOtraHistoria(l: Libro, p: Pedido, q: Pedido, id: string, ahora: nat, h: Huella, insumos: set<string>)
    requires Registrar(l, p, id, ahora, h, insumos).Bien? && Registrar(l, q, id, ahora, h, insumos).Bien?
    requires q == p.(origen := q.origen, destino := q.destino) && OVacio(q.origen) != OVacio(p.origen)
    requires OVacio(q.origen) + "|" + q.destino == OVacio(p.origen) + "|" + p.destino
    ensures var a, b := PorItem(Registrar(l, p, id, ahora, h, insumos).valor.movs, p.item),
                        PorItem(Registrar(l, q, id, ahora, h, insumos).valor.movs, p.item);
      Cola(a) == Cola(b) && !MismosMovimientos(a, b)
  {
    AsientosGemelos(l.movs, p, q, id, ahora, h);
    FinalesDistintos(l.movs, Asiento(l.movs, p, id, ahora, h), Asiento(l.movs, q, id, ahora, h));
  }

  lemma AsientosGemelos(movs: seq<Movimiento>, p: Pedido, q: Pedido, id: string, ahora: nat, h: Huella)
    requires q == p.(origen := q.origen, destino := q.destino) && OVacio(q.origen) != OVacio(p.origen)
    requires OVacio(q.origen) + "|" + q.destino == OVacio(p.origen) + "|" + p.destino
    ensures var m, n := Asiento(movs, p, id, ahora, h), Asiento(movs, q, id, ahora, h);
      m.hashRegistro == n.hashRegistro && !MismosCampos(m, n) && m.item == n.item == p.item
  {
  }

  lemma FinalesDistintos(movs: seq<Movimiento>, m: Movimiento, n: Movimiento)
    requires m.item == n.item && m.hashRegistro == n.hashRegistro && !MismosCampos(m, n)
    ensures var a, b := PorItem(movs + [m], m.item), PorItem(movs + [n], m.item);
      Cola(a) == Cola(b) && !MismosMovimientos(a, b)
  {
    PorItemUnoMas(movs, m, m.item);
    PorItemUnoMas(movs, n, m.item);
    var a, b := PorItem(movs + [m], m.item), PorItem(movs + [n], m.item);
    assert !MismosCampos(a[|a| - 1], b[|b| - 1]);
  }

  function Llegada(item: string, lugar: string, cantidad: int): Pedido {
    Pedido(item, Ingreso, lugar, cantidad, Nada, Nada)
  }

  function Envio(item: string, origen: string, destino: string, cantidad: int): Pedido {
    Pedido(item, Traslado, destino, cantidad, Algo(origen), Nada)
  }

  lemma UnMasAlFinal(es: seq<Evento>, e: Evento, h: Huella, insumos: set<string>)
    requires Registrar(Correr(es, h, insumos), e.pedido, e.id, e.ahora, h, insumos).Bien?
    ensures Correr(es + [e], h, insumos) == Registrar(Correr(es, h, insumos), e.pedido, e.id, e.ahora, h, insumos).valor
  {
    assert (es + [e])[..|es|] == es;
  }

  lemma LlegadaAceptada(l: Libro, item: string, lugar: string, cantidad: int, id: string, ahora: nat, h: Huella,
                        insumos: set<string>)
    requires item in insumos && 0 < cantidad <= INT4_MAX && lugar != "" && (item, lugar) !in l.stock
    ensures var r := Registrar(l, Llegada(item, lugar, cantidad), id, ahora, h, insumos);
      r.Bien? && r.valor.stock == l.stock[(item, lugar) := cantidad]
  {
  }

  lemma DosLlegadas(h: Huella, insumos: set<string>, item: string, a: string, b: string, cantidad: int, t: nat)
    returns (es: seq<Evento>)
    requires item in insumos && 0 < cantidad <= INT4_MAX && a != "" && b != "" && a != b
    ensures es == [Evento(Llegada(item, a, cantidad), "1", t), Evento(Llegada(item, b, cantidad), "2", t + 1)]
    ensures Correr(es, h, insumos).stock == map[(item, a) := cantidad, (item, b) := cantidad]
  {
    var e, f := Evento(Llegada(item, a, cantidad), "1", t), Evento(Llegada(item, b, cantidad), "2", t + 1);
    LlegadaAceptada(Libro(map[], []), item, a, cantidad, "1", t, h, insumos);
    assert Correr([], h, insumos) == Libro(map[], []);
    UnMasAlFinal([], e, h, insumos);
    assert [] + [e] == [e];
    LlegadaAceptada(Correr([e], h, insumos), item, b, cantidad, "2", t + 1, h, insumos);
    UnMasAlFinal([e], f, h, insumos);
    es := [e] + [f];
  }

  /** The condition on origins is needed: for every item of the catalogue, every hash and any places there are two
      runs whose logs of the item end in the same hash and differ. */
  lemma ColaAmbigua(h: Huella, insumos: set<string>, item: string, o: string, r: string, d: string, cantidad: int,
                    t: nat)
    returns (es: seq<Evento>, fs: seq<Evento>)
    requires item in insumos && 0 < cantidad && 2 * cantidad <= INT4_MAX && o != "" && d != ""
    ensures RelojEstricto(es) && RelojEstricto(fs)
    ensures var a, b := PorItem(Correr(es, h, insumos).movs, item), PorItem(Correr(fs, h, insumos).movs, item);
      Cola(a) == Cola(b) && !MismosMovimientos(a, b)
  {
    var largo := o + "|" + r;
    var base := DosLlegadas(h, insumos, item, largo, o, cantidad, t);
    var p, q := Envio(item, largo, d, cantidad), Envio(item, o, r + "|" + d, cantidad);
    assert largo + "|" + d == o + "|" + (r + "|" + d);
    EnvioAceptado(Correr(base, h, insumos), p, "3", t + 2, h, insumos);
    EnvioAceptado(Correr(base, h, insumos), q, "3", t + 2, h, insumos);
    es, fs := DosFinales(base, p, q, "3", t + 2, h, insumos);
  }

  lemma DosFinales(base: seq<Evento>, p: Pedido, q: Pedido, id: string, ahora: nat, h: Huella, insumos: set<string>)
    returns (es: seq<Evento>, fs: seq<Evento>)
    requires RelojEstricto(base) && forall i :: 0 <= i < |base| ==> base[i].ahora < ahora
    requires var l := Correr(base, h, insumos);
      Registrar(l, p, id, ahora, h, insumos).Bien? && Registrar(l, q, id, ahora, h, insumos).Bien?
    requires q == p.(origen := q.origen, destino := q.destino) && OVacio(q.origen) != OVacio(p.origen)
    requires OVacio(q.origen) + "|" + q.destino == OVacio(p.origen) + "|" + p.destino
    ensures RelojEstricto(es) && RelojEstricto(fs)
    ensures var a, b := PorItem(Correr(es, h, insumos).movs, p.item), PorItem(Correr(fs, h, insumos).movs, p.item);
      Cola(a) == Cola(b) && !MismosMovimientos(a, b)
  {
    UnMasAlFinal(base, Evento(p, id, ahora), h, insumos);
    UnMasAlFinal(base, Evento(q, id, ahora), h, insumos);
    MismaColaOtraHistoria(Correr(base, h, insumos), p, q, id, ahora, h, insumos);
    es, fs := base + [Evento(p, id, ahora)], base + [Evento(q, id, ahora)];
  }

  lemma EnvioAceptado(l: Libro, p: Pedido, id: string, ahora: nat, h: Huella, insumos: set<string>)
    requires Revisar(p).Nada? && p.tipo == Traslado && p.item in insumos && 2 * p.cantidad <= INT4_MAX
    requires (p.item, OVacio(p.origen)) in l.stock
    requires forall k :: k in l.stock ==> l.stock[k] == p.cantidad
    ensures Registrar(l, p, id, ahora, h, insumos).Bien?
  {
  }
}
