/** Keyset pagination: `listar` of the user, audit, traslado, radicación and novedad repositories.

    Every one of them filters, keeps the rows after the cursor, orders by (creado_en, id) descending, reads
    one row more than the page holds, and hands out the key of the last row as the next cursor. */
module Paginacion {
  import opened Opciones
  import opened Conjuntos

  datatype Fila = Fila(creado: int, id: int, datos: string)

  datatype Clave = Clave(creado: int, id: int)

  /** What the client sends: nothing, a cursor that decodes, or something that does not. */
  datatype Cursor = Ausente | Valido(clave: Clave) | Ilegible

  datatype Pagina = Pagina(items: seq<Fila>, siguiente: Opcion<Clave>)

  function ClaveDe(f: Fila): Clave {
    Clave(f.creado, f.id)
  }

  /** `a` comes strictly later in the listing than `b`. */
  predicate Despues(a: Clave, b: Clave) {
    a.creado < b.creado || (a.creado == b.creado && a.id < b.id)
  }

  /** `id` is the primary key. */
  ghost predicate IdUnico(tabla: set<Fila>) {
    forall a, b :: a in tabla && b in tabla && a.id == b.id ==> a == b
  }

  predicate TrasCursor(f: Fila, cursor: Opcion<Clave>) {
    cursor.Algo? ==> Despues(ClaveDe(f), cursor.valor)
  }

  /** The rows WHERE lets through. */
  function Visibles(tabla: set<Fila>, filtro: Fila -> bool, cursor: Opcion<Clave>): set<Fila> {
    set f | f in tabla && filtro(f) && TrasCursor(f, cursor)
  }

  predicate Descendente(s: seq<Fila>) {
    forall i, j :: 0 <= i < j < |s| ==> Despues(ClaveDe(s[j]), ClaveDe(s[i]))
  }

  predicate EsPrimera(m: Fila, s: set<Fila>) {
    m in s && forall f :: f in s && f != m ==> Despues(ClaveDe(f), ClaveDe(m))
  }

  lemma {:induction false} HayPrimera(s: set<Fila>)
    requires s != {} && IdUnico(s)
    ensures exists m :: EsPrimera(m, s)
    decreases s
  {
    var m := Alguno(s);
    var resto := s - {m};
    assert forall f :: f in s ==> f == m || f in resto;
    if resto == {} {
      assert EsPrimera(m, s);
    } else {
      HayPrimera(resto);
      var otra :| EsPrimera(otra, resto);
      assert EsPrimera(if Despues(ClaveDe(m), ClaveDe(otra)) then otra else m, s);
    }
  }

  /** ORDER BY creado_en DESC, id DESC. */
  ghost function Ordenada(s: set<Fila>): seq<Fila>
    requires IdUnico(s)
  {
    if s == {} then []
    else
      HayPrimera(s);
      var m :| EsPrimera(m, s);
      [m] + Ordenada(s - {m})
  }

  lemma OrdenadaPaso(s: set<Fila>, m: Fila)
    requires IdUnico(s) && EsPrimera(m, s)
    ensures Ordenada(s) == [m] + Ordenada(s - {m})
  {
    HayPrimera(s);
    forall o | EsPrimera(o, s) ensures o == m {
    }
  }

  lemma {:induction false} OrdenadaOrdena(s: set<Fila>)
    requires IdUnico(s)
    ensures Descendente(Ordenada(s)) && |Ordenada(s)| == |s|
    ensures forall f :: f in Ordenada(s) <==> f in s
  {
    if s != {} {
      HayPrimera(s);
      var m :| EsPrimera(m, s);
      OrdenadaPaso(s, m);
      OrdenadaOrdena(s - {m});
    }
  }

  lemma PrimeraDentro(t: seq<Fila>)
    ensures t != [] ==> t[0] in t
  {
  }

  lemma DentroDelCorte(t: seq<Fila>, n: nat, k: nat)
    requires n <= |t| && k < |t|
    ensures k < n ==> t[k] in t[..n]
  {
    if k < n { assert t[..n][k] == t[k]; }
  }

  /** There is only one descending listing of a set of rows. */
  lemma {:induction false} OrdenUnico(s: seq<Fila>, t: seq<Fila>)
    requires Descendente(s) && Descendente(t)
    requires forall f :: f in s <==> f in t
    ensures s == t
  {
    PrimeraDentro(t);
    if s != [] {
      assert s[0] in s && s[0] in t;
      assert t[0] in t && t[0] in s;
      assert s[0] == t[0];
      forall f ensures f in s[1..] <==> f in t[1..] {
        assert f in s[1..] <==> f in s && f != s[0];
        assert f in t[1..] <==> f in t && f != t[0];
      }
      OrdenUnico(s[1..], t[1..]);
    }
  }

  // ---------------------------------------------------------------- one page

  /** The page `listar` returns. */
  ghost function Listar(tabla: set<Fila>, filtro: Fila -> bool, cursor: Opcion<Clave>, n: nat): Pagina
    requires IdUnico(tabla) && n >= 1
  {
    var filas := Ordenada(Visibles(tabla, filtro, cursor));
    OrdenadaOrdena(Visibles(tabla, filtro, cursor));
    if |filas| > n then Pagina(filas[..n], Algo(ClaveDe(filas[n - 1]))) else Pagina(filas, Nada)
  }

  lemma UnaFilaMas(todas: seq<Fila>, filas: seq<Fila>, resto: set<Fila>, m: Fila)
    requires IdUnico(resto) && EsPrimera(m, resto) && todas == filas + Ordenada(resto)
    ensures todas == filas + [m] + Ordenada(resto - {m})
  {
    OrdenadaPaso(resto, m);
  }

  lemma BastanLeidas(todas: seq<Fila>, filas: seq<Fila>, resto: set<Fila>, limite: nat)
    requires IdUnico(resto) && todas == filas + Ordenada(resto) && |filas| <= limite
    requires |filas| == limite || resto == {}
    ensures filas == if |todas| > limite then todas[..limite] else todas
  {
    OrdenadaOrdena(resto);
  }

  /** The database's answer to SELECT ... ORDER BY creado_en DESC, id DESC LIMIT limite. */
  method Consultar(tabla: set<Fila>, filtro: Fila -> bool, cursor: Opcion<Clave>, limite: nat)
    returns (filas: seq<Fila>)
    requires IdUnico(tabla)
    ensures var todas := Ordenada(Visibles(tabla, filtro, cursor));
      filas == if |todas| > limite then todas[..limite] else todas
  {
    var resto := Visibles(tabla, filtro, cursor);
    ghost var todas := Ordenada(resto);
    filas := [];
    while |filas| < limite && resto != {}
      invariant resto <= tabla && |filas| <= limite
      invariant todas == filas + Ordenada(resto)
    {
      HayPrimera(resto);
      var m :| m in resto && EsPrimera(m, resto);
      UnaFilaMas(todas, filas, resto, m);
      filas := filas + [m];
      resto := resto - {m};
    }
    BastanLeidas(todas, filas, resto, limite);
  }

  /** `UsuarioRepositorioSQL.listar` (the movilidad repositories trim the same way). A cursor that does not
      decode is an error. */
  method ListarUsuarios(tabla: set<Fila>, filtro: Fila -> bool, cursor: Cursor, n: nat)
    returns (r: Resultado<Pagina, string>)
    requires IdUnico(tabla) && n >= 1
    ensures r == match cursor
      case Ilegible => Mal("cursor")
      case Ausente => Bien(Listar(tabla, filtro, Nada, n))
      case Valido(c) => Bien(Listar(tabla, filtro, Algo(c), n))
  {
    if cursor.Ilegible? { return Mal("cursor"); }
    var desde: Opcion<Clave> := if cursor.Valido? then Algo(cursor.clave) else Nada;
    ghost var todas := Ordenada(Visibles(tabla, filtro, desde));
    assert |todas| > n + 1 ==> todas[..n + 1][..n] == todas[..n];
    var modelos := Consultar(tabla, filtro, desde, n + 1);
    var siguiente: Opcion<Clave> := Nada;
    if |modelos| > n {
      modelos := modelos[..n];
      siguiente := Algo(ClaveDe(modelos[|modelos| - 1]));
    }
    return Bien(Pagina(modelos, siguiente));
  }

  /** `AuditoriaRepositorioSQL.listar`: the total is counted without the cursor, and a cursor that does not
      decode is ignored. */
  method ListarAuditoria(tabla: set<Fila>, filtro: Fila -> bool, cursor: Cursor, n: nat)
    returns (pagina: Pagina, total: nat)
    requires IdUnico(tabla) && n >= 1
    ensures pagina == Listar(tabla, filtro, if cursor.Valido? then Algo(cursor.clave) else Nada, n)
    ensures total == |Visibles(tabla, filtro, Nada)| == |set f | f in tabla && filtro(f)|
  {
    var desde: Opcion<Clave> := if cursor.Valido? then Algo(cursor.clave) else Nada;
    total := |Visibles(tabla, filtro, Nada)|;
    assert Visibles(tabla, filtro, Nada) == set f | f in tabla && filtro(f);
    var modelos := Consultar(tabla, filtro, desde, n + 1);
    var siguiente: Opcion<Clave> := Nada;
    if |modelos| > n {
      modelos := modelos[..n];
      siguiente := Algo(ClaveDe(modelos[|modelos| - 1]));
    }
    pagina := Pagina(modelos, siguiente);
  }

  /** What a page promises, in terms of the rows that could have been on it. */
  ghost predicate EsPagina(p: Pagina, v: set<Fila>, n: nat) {
    && Descendente(p.items) && |p.items| <= n
    && (forall f :: f in p.items ==> f in v)
    && (p.siguiente.Algo? ==> |p.items| == n && p.items != [] && p.siguiente.valor == ClaveDe(p.items[|p.items| - 1]))
    && (forall f :: f in v && f !in p.items ==> p.siguiente.Algo? && Despues(ClaveDe(f), p.siguiente.valor))
    && (p.siguiente.Algo? ==> exists f :: f in v && Despues(ClaveDe(f), p.siguiente.valor))
  }

  lemma PaginaBien(tabla: set<Fila>, filtro: Fila -> bool, cursor: Opcion<Clave>, n: nat)
    requires IdUnico(tabla) && n >= 1
    ensures EsPagina(Listar(tabla, filtro, cursor, n), Visibles(tabla, filtro, cursor), n)
  {
    var v := Visibles(tabla, filtro, cursor);
    OrdenadaOrdena(v);
    CorteBien(Ordenada(v), v, n);
  }

  /** The page spelled out on the rows: newest first and, of the same instant, the greater identifier first; only
      matching rows of the table strictly older than the cursor in that order; every one of these that is not on it is
      older than its last row; and a next cursor, the key of that row, exactly when there are such. */
  lemma PaginaEnClaro(tabla: set<Fila>, filtro: Fila -> bool, cursor: Opcion<Clave>, n: nat)
    requires IdUnico(tabla) && n >= 1
    ensures var p, v := Listar(tabla, filtro, cursor, n),
        set f | f in tabla && filtro(f) && (cursor.Nada? || f.creado < cursor.valor.creado
                                            || (f.creado == cursor.valor.creado && f.id < cursor.valor.id));
      && (forall i, j :: 0 <= i < j < |p.items| ==>
            p.items[i].creado > p.items[j].creado
            || (p.items[i].creado == p.items[j].creado && p.items[i].id > p.items[j].id))
      && (forall f :: f in p.items ==> f in v)
      && |p.items| == (if |v| > n then n else |v|)
      && (p.siguiente.Algo? <==> |v| > n)
      && (p.siguiente.Algo? ==> p.siguiente.valor == Clave(p.items[n - 1].creado, p.items[n - 1].id))
      && (forall f :: f in v && f !in p.items ==>
            p.siguiente.Algo? && (f.creado < p.siguiente.valor.creado
                                  || (f.creado == p.siguiente.valor.creado && f.id < p.siguiente.valor.id)))
  {
    var v := set f | f in tabla && filtro(f) && (cursor.Nada? || f.creado < cursor.valor.creado
                                                 || (f.creado == cursor.valor.creado && f.id < cursor.valor.id));
    assert Visibles(tabla, filtro, cursor) == v;
    OrdenadaOrdena(v);
    PaginaBien(tabla, filtro, cursor, n);
  }

  lemma CorteBien(filas: seq<Fila>, v: set<Fila>, n: nat)
    requires Descendente(filas) && n >= 1
    requires forall f :: f in filas <==> f in v
    ensures EsPagina(if |filas| > n then Pagina(filas[..n], Algo(ClaveDe(filas[n - 1]))) else Pagina(filas, Nada), v, n)
  {
    if |filas| > n {
      assert filas[n] in filas;
      forall f | f in v && f !in filas[..n] ensures Despues(ClaveDe(f), ClaveDe(filas[n - 1])) {
        var k :| 0 <= k < |filas| && filas[k] == f;
        DentroDelCorte(filas, n, k);
      }
    }
  }

  // ---------------------------------------------------------------- following the cursors

  /** The cursor that the last page read hands out. */
  function Siguiente(ps: seq<Pagina>): Opcion<Clave> {
    if ps == [] then Nada else ps[|ps| - 1].siguiente
  }

  /** Pages obtained by following cursors while the table may change between requests: page `i` is read from
      `tablas[i]`. */
  ghost predicate Recorrido(tablas: seq<set<Fila>>, filtro: Fila -> bool, n: nat, ps: seq<Pagina>) {
    && |tablas| == |ps|
    && (ps != [] ==>
        var m := |ps| - 1;
        && n >= 1 && IdUnico(tablas[m])
        && Recorrido(tablas[..m], filtro, n, ps[..m])
        && (m > 0 ==> Siguiente(ps[..m]).Algo?)
        && ps[m] == Listar(tablas[m], filtro, Siguiente(ps[..m]), n))
  }

  function Todo(ps: seq<Pagina>): seq<Fila> {
    if ps == [] then [] else Todo(ps[..|ps| - 1]) + ps[|ps| - 1].items
  }

  /** `leidas` is descending and ends at the cursor. */
  ghost predicate LeidasHasta(leidas: seq<Fila>, cursor: Opcion<Clave>) {
    && Descendente(leidas)
    && (cursor.Algo? ==> leidas != [] && cursor.valor == ClaveDe(leidas[|leidas| - 1]))
  }

  lemma UnaPaginaMas(leidas: seq<Fila>, cursor: Opcion<Clave>, p: Pagina, v: set<Fila>, n: nat)
    requires LeidasHasta(leidas, cursor) && EsPagina(p, v, n) && (leidas == [] || cursor.Algo?)
    requires forall f :: f in v ==> TrasCursor(f, cursor)
    ensures LeidasHasta(leidas + p.items, p.siguiente)
  {
    var t := leidas + p.items;
    forall i, j | 0 <= i < j < |t| ensures Despues(ClaveDe(t[j]), ClaveDe(t[i])) {
      if i < |leidas| <= j {
        assert p.items[j - |leidas|] in p.items;
      }
    }
  }

  lemma {:induction false} LeidoDescendente(tablas: seq<set<Fila>>, filtro: Fila -> bool, n: nat, ps: seq<Pagina>)
    requires Recorrido(tablas, filtro, n, ps)
    ensures LeidasHasta(Todo(ps), Siguiente(ps))
  {
    if ps != [] {
      var m := |ps| - 1;
      var cursor := Siguiente(ps[..m]);
      LeidoDescendente(tablas[..m], filtro, n, ps[..m]);
      PaginaBien(tablas[m], filtro, cursor, n);
      UnaPaginaMas(Todo(ps[..m]), cursor, ps[m], Visibles(tablas[m], filtro, cursor), n);
    }
  }

  /** Whatever rows come and go between the pages, no row is listed twice and the order holds throughout. */
  lemma SinRepetidos(tablas: seq<set<Fila>>, filtro: Fila -> bool, n: nat, ps: seq<Pagina>)
    requires Recorrido(tablas, filtro, n, ps)
    ensures Descendente(Todo(ps))
    ensures forall i, j :: 0 <= i < j < |Todo(ps)| ==> ClaveDe(Todo(ps)[i]) != ClaveDe(Todo(ps)[j])
    ensures forall i, j :: 0 <= i < j < |Todo(ps)| ==>
      var a, b := Todo(ps)[i], Todo(ps)[j]; a.creado > b.creado || (a.creado == b.creado && a.id > b.id)
  {
    LeidoDescendente(tablas, filtro, n, ps);
  }

  /** A row with this key is there and matches, whatever else it holds. */
  ghost predicate Presente(tabla: set<Fila>, filtro: Fila -> bool, c: Clave) {
    exists f :: f in tabla && filtro(f) && ClaveDe(f) == c
  }

  ghost predicate Listada(filas: seq<Fila>, c: Clave) {
    exists f :: f in filas && ClaveDe(f) == c
  }

  /** Only rows that matched and were there when their page was read are listed. */
  lemma {:induction false} SoloLasQueCasan(tablas: seq<set<Fila>>, filtro: Fila -> bool, n: nat, ps: seq<Pagina>,
                                           f: Fila)
    returns (i: nat)
    requires Recorrido(tablas, filtro, n, ps) && f in Todo(ps)
    ensures i < |tablas| && i < |ps| && f in ps[i].items && f in tablas[i] && filtro(f)
  {
    var m := |ps| - 1;
    if f in ps[m].items {
      i := m;
      PaginaEnClaro(tablas[m], filtro, Siguiente(ps[..m]), n);
    } else {
      i := SoloLasQueCasan(tablas[..m], filtro, n, ps[..m], f);
    }
  }

  lemma {:induction false} LeidoOPendiente(tablas: seq<set<Fila>>, filtro: Fila -> bool, n: nat, ps: seq<Pagina>,
                                           c: Clave)
    requires Recorrido(tablas, filtro, n, ps) && ps != []
    requires forall i :: 0 <= i < |tablas| ==> Presente(tablas[i], filtro, c)
    ensures Listada(Todo(ps), c) || (Siguiente(ps).Algo? && Despues(c, Siguiente(ps).valor))
  {
    var m := |ps| - 1;
    var cursor := Siguiente(ps[..m]);
    if m > 0 {
      LeidoOPendiente(tablas[..m], filtro, n, ps[..m], c);
    }
    if m > 0 && Listada(Todo(ps[..m]), c) {
      var f :| f in Todo(ps[..m]) && ClaveDe(f) == c;
      assert f in Todo(ps);
    } else {
      assert Presente(tablas[m], filtro, c);
      var f :| f in tablas[m] && filtro(f) && ClaveDe(f) == c;
      PaginaBien(tablas[m], filtro, cursor, n);
      assert f in Visibles(tablas[m], filtro, cursor);
      assert f in ps[m].items ==> f in Todo(ps);
    }
  }

  /** Whatever rows come and go between the pages, and whatever else changes in a row, one that is there and matches
      throughout is listed by the time the cursors end. */
  lemma SinPerdidas(tablas: seq<set<Fila>>, filtro: Fila -> bool, n: nat, ps: seq<Pagina>, c: Clave)
    requires Recorrido(tablas, filtro, n, ps) && ps != [] && Siguiente(ps).Nada?
    requires forall i :: 0 <= i < |tablas| ==> Presente(tablas[i], filtro, c)
    ensures Listada(Todo(ps), c)
  {
    LeidoOPendiente(tablas, filtro, n, ps, c);
  }

  // ---------------------------------------------------------------- a table that does not change

  ghost predicate TablaFija(tablas: seq<set<Fila>>, tabla: set<Fila>) {
    forall i :: 0 <= i < |tablas| ==> tablas[i] == tabla
  }

  lemma {:induction false} SoloVisibles(tablas: seq<set<Fila>>, tabla: set<Fila>, filtro: Fila -> bool, n: nat,
                                        ps: seq<Pagina>)
    requires Recorrido(tablas, filtro, n, ps) && TablaFija(tablas, tabla)
    ensures forall f :: f in Todo(ps) ==> f in Visibles(tabla, filtro, Nada)
    ensures Siguiente(ps).Algo? ==> |Todo(ps)| == |ps| * n
    ensures ps != [] ==> |Todo(ps)| == (|ps| - 1) * n + |ps[|ps| - 1].items| && |ps[|ps| - 1].items| <= n
  {
    if ps != [] {
      var m := |ps| - 1;
      SoloVisibles(tablas[..m], tabla, filtro, n, ps[..m]);
      PaginaBien(tablas[m], filtro, Siguiente(ps[..m]), n);
      assert |ps| * n == m * n + n;
    }
  }

  /** Following the cursors to the end over a fixed table refines "filter, sort, read once": the pages joined
      are the whole listing, in order, and the audit total is the sum of their lengths. */
  lemma RefinaOrdenar(tablas: seq<set<Fila>>, tabla: set<Fila>, filtro: Fila -> bool, n: nat, ps: seq<Pagina>)
    requires Recorrido(tablas, filtro, n, ps) && TablaFija(tablas, tabla) && ps != [] && Siguiente(ps).Nada?
    ensures IdUnico(tabla) && Todo(ps) == Ordenada(Visibles(tabla, filtro, Nada))
    ensures |Todo(ps)| == |Visibles(tabla, filtro, Nada)|
  {
    assert tablas[|ps| - 1] == tabla;
    var v := Visibles(tabla, filtro, Nada);
    OrdenadaOrdena(v);
    LeidoDescendente(tablas, filtro, n, ps);
    SoloVisibles(tablas, tabla, filtro, n, ps);
    forall f ensures f in Todo(ps) <==> f in Ordenada(v) {
      if f in v {
        assert Presente(tabla, filtro, ClaveDe(f));
        SinPerdidas(tablas, filtro, n, ps, ClaveDe(f));
      }
    }
    OrdenUnico(Todo(ps), Ordenada(v));
  }

  /** The same spelled out on the rows: all that match and no others, newest first. */
  lemma RecorridoEnClaro(tablas: seq<set<Fila>>, tabla: set<Fila>, filtro: Fila -> bool, n: nat, ps: seq<Pagina>)
    requires Recorrido(tablas, filtro, n, ps) && TablaFija(tablas, tabla) && ps != [] && Siguiente(ps).Nada?
    ensures forall f :: f in Todo(ps) <==> f in tabla && filtro(f)
    ensures |Todo(ps)| == |set f | f in tabla && filtro(f)|
    ensures forall i, j :: 0 <= i < j < |Todo(ps)| ==>
      var a, b := Todo(ps)[i], Todo(ps)[j]; a.creado > b.creado || (a.creado == b.creado && a.id > b.id)
  {
    RefinaOrdenar(tablas, tabla, filtro, n, ps);
    SinRepetidos(tablas, filtro, n, ps);
    var v := Visibles(tabla, filtro, Nada);
    OrdenadaOrdena(v);
    assert v == set f | f in tabla && filtro(f);
  }

  /** A next cursor is only handed out when something lies after it. */
  lemma UltimaNoVacia(tablas: seq<set<Fila>>, tabla: set<Fila>, filtro: Fila -> bool, n: nat, ps: seq<Pagina>)
    requires Recorrido(tablas, filtro, n, ps) && TablaFija(tablas, tabla) && |ps| > 1
    ensures |ps[|ps| - 1].items| > 0
  {
    var m := |ps| - 1;
    var antes := ps[..m];
    assert antes[m - 1] == ps[m - 1];
    PaginaBien(tablas[m - 1], filtro, Siguiente(antes[..m - 1]), n);
    var c := Siguiente(antes);
    var f :| f in Visibles(tabla, filtro, Siguiente(antes[..m - 1])) && Despues(ClaveDe(f), c.valor);
    PaginaBien(tablas[m], filtro, c, n);
    assert f in Visibles(tabla, filtro, c);
    assert f in ps[m].items || ps[m].siguiente.Algo?;
  }

  lemma Signo(n: nat, d: int)
    ensures d >= 1 ==> n * d >= n
    ensures d <= -1 ==> n * d + n <= 0
  {
    if d >= 1 { assert n * d == n * (d - 1) + n; }
    if d <= -1 { assert n * d == n * (d + 1) - n; }
  }

  lemma Cociente(m: nat, n: nat, k: nat)
    requires 1 <= k <= n
    ensures (m * n + k + n - 1) / n == m + 1
  {
    var x, q := m * n + k + n - 1, (m * n + k + n - 1) / n;
    assert x == n * q + x % n;
    assert x == n * (m + 1) + (k - 1);
    var d := q - (m + 1);
    assert n * d == (k - 1) - x % n;
    Signo(n, d);
  }

  lemma Techo(m: nat, n: nat, k: nat, total: nat)
    requires n >= 1 && k <= n && total == m * n + k && (m > 0 ==> k > 0)
    ensures m + 1 == if total == 0 then 1 else (total + n - 1) / n
  {
    if m > 0 { assert m * n == (m - 1) * n + n; }
    if k > 0 { Cociente(m, n, k); }
  }

  /** Over N matching rows the walk takes exactly max(1, ceil(N / n)) pages. */
  lemma NumeroDePaginas(tablas: seq<set<Fila>>, tabla: set<Fila>, filtro: Fila -> bool, n: nat, ps: seq<Pagina>)
    requires n >= 1
    requires Recorrido(tablas, filtro, n, ps) && TablaFija(tablas, tabla) && ps != [] && Siguiente(ps).Nada?
    ensures var total := |Visibles(tabla, filtro, Nada)|;
      |ps| == if total == 0 then 1 else (total + n - 1) / n
  {
    var m := |ps| - 1;
    RefinaOrdenar(tablas, tabla, filtro, n, ps);
    SoloVisibles(tablas, tabla, filtro, n, ps);
    if m > 0 { UltimaNoVacia(tablas, tabla, filtro, n, ps); }
    Techo(m, n, |ps[m].items|, |Todo(ps)|);
  }

  /** Over a fixed table the cursors do end: no walk has more pages than that. */
  lemma RecorridoTermina(tablas: seq<set<Fila>>, tabla: set<Fila>, filtro: Fila -> bool, n: nat, ps: seq<Pagina>)
    requires n >= 1
    requires Recorrido(tablas, filtro, n, ps) && TablaFija(tablas, tabla) && Siguiente(ps).Algo?
    ensures |ps| * n < |Visibles(tabla, filtro, Nada)|
  {
    var v, m := Visibles(tabla, filtro, Nada), |ps| - 1;
    LeidoDescendente(tablas, filtro, n, ps);
    SoloVisibles(tablas, tabla, filtro, n, ps);
    PaginaBien(tablas[m], filtro, Siguiente(ps[..m]), n);
    var f :| f in Visibles(tabla, filtro, Siguiente(ps[..m])) && Despues(ClaveDe(f), Siguiente(ps).valor);
    CabeUnaMas(Todo(ps), f, v);
  }

  /** A descending listing of rows of `v` that ends before some row of `v` is shorter than `v` is large. */
  lemma CabeUnaMas(s: seq<Fila>, f: Fila, v: set<Fila>)
    requires Descendente(s) && s != [] && Despues(ClaveDe(f), ClaveDe(s[|s| - 1]))
    requires f in v && forall g :: g in s ==> g in v
    ensures |s| < |v|
  {
    assert Descendente(s + [f]);
    DescendenteSinRepetir(s + [f]);
    SubconjuntoMenor((set g | g in s + [f]), v);
  }

  lemma {:induction false} DescendenteSinRepetir(s: seq<Fila>)
    requires Descendente(s)
    ensures |set g | g in s| == |s|
  {
    if s != [] {
      var m := |s| - 1;
      DescendenteSinRepetir(s[..m]);
      assert s[m] !in s[..m];
      assert (set g | g in s) == (set g | g in s[..m]) + {s[m]} by {
        assert s == s[..m] + [s[m]];
      }
    }
  }
}
