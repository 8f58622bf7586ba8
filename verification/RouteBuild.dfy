/** How the routing table's content is assembled from the registry (control/proxies.go). The
    custom domains come out of a map, whose order differs from build to build, and the rows
    are then sorted by host. */
module RouteBuild {
  import opened Transcript
  import opened StringOrder

  datatype App = App(id: Id, name: string, host: string, port: int, isPrivate: bool)

  datatype Route = Route(host: string, target: string, app: string, isPrivate: bool, access: seq<string>)

  function Digits(n: nat): string {
    if n < 10 then ['0' + (n as char)] else Digits(n / 10) + ['0' + ((n % 10) as char)]
  }

  /** A port as it is printed. */
  function Decimal(n: int): string { if n < 0 then "-" + Digits(-n) else Digits(n) }

  /** `address` is empty for a node that has not said where it is. */
  datatype Registry = Registry(apps: seq<App>, domains: map<string, seq<string>>, access: map<Id, seq<string>>,
                               base: string, address: string -> string) {
    function Reachable(a: App): bool { address(a.host) != "" }

    function Access(a: App): seq<string> {
      if a.isPrivate then SortStrings(Allowed(a)) else []
    }

    /** Who may open the app, in the order the store lists them. */
    function Allowed(a: App): seq<string> { if a.id in access then access[a.id] else [] }

    /** The row that answers for `a` under `host`. */
    function RowFor(a: App, host: string): Route {
      Route(host, address(a.host) + ":" + Decimal(a.port), a.name, a.isPrivate, Access(a))
    }

    function Subdomain(a: App): string { a.name + "." + base }

    predicate UniqueNames() {
      forall i, j :: 0 <= i < j < |apps| ==> apps[i].name != apps[j].name
    }

    /** `r` belongs in the table: some reachable app's row, under its own name or one of its
        custom domains. */
    ghost predicate Wanted(r: Route) {
      exists i :: 0 <= i < |apps| && Reachable(apps[i]) && Names(apps[i], r.host) && r == RowFor(apps[i], r.host)
    }

    predicate Names(a: App, host: string) {
      host == Subdomain(a) || (a.name in domains && host in domains[a.name])
    }
  }

  // ---- The rows, as the loops list them --------------------------------------------------------

  function AppRows(reg: Registry, apps: seq<App>): seq<Route> {
    if apps == [] then []
    else if reg.Reachable(apps[0]) then [reg.RowFor(apps[0], reg.Subdomain(apps[0]))] + AppRows(reg, apps[1..])
    else AppRows(reg, apps[1..])
  }

  /** The reachable app of that name. */
  function Find(reg: Registry, apps: seq<App>, name: string): Option<App> {
    if apps == [] then None
    else
      var later := Find(reg, apps[1..], name);
      if later.Some? then later
      else if reg.Reachable(apps[0]) && apps[0].name == name then Some(apps[0])
      else None
  }

  function RowsUnder(reg: Registry, a: App, hosts: seq<string>): (r: seq<Route>)
    ensures |r| == |hosts|
    ensures forall i :: 0 <= i < |hosts| ==> r[i] == reg.RowFor(a, hosts[i])
  {
    seq(|hosts|, i requires 0 <= i < |hosts| => reg.RowFor(a, hosts[i]))
  }

  function DomainRowsOf(reg: Registry, name: string): seq<Route> {
    var a := Find(reg, reg.apps, name);
    if a.None? || name !in reg.domains then [] else RowsUnder(reg, a.value, reg.domains[name])
  }

  function DomainRows(reg: Registry, order: seq<string>): seq<Route> {
    if order == [] then [] else DomainRowsOf(reg, order[0]) + DomainRows(reg, order[1..])
  }

  lemma {:induction false} AppRowsSnoc(reg: Registry, apps: seq<App>, a: App)
    ensures AppRows(reg, apps + [a]) ==
            AppRows(reg, apps) + (if reg.Reachable(a) then [reg.RowFor(a, reg.Subdomain(a))] else [])
  {
    if apps == [] {
      assert apps + [a] == [a] && [a][1..] == [];
    } else {
      assert (apps + [a])[1..] == apps[1..] + [a];
      AppRowsSnoc(reg, apps[1..], a);
    }
  }

  lemma {:induction false} FindSnoc(reg: Registry, apps: seq<App>, a: App, name: string)
    ensures Find(reg, apps + [a], name) == if reg.Reachable(a) && a.name == name then Some(a) else Find(reg, apps, name)
  {
    if apps == [] {
      assert apps + [a] == [a] && [a][1..] == [];
    } else {
      assert (apps + [a])[1..] == apps[1..] + [a];
      FindSnoc(reg, apps[1..], a, name);
    }
  }

  lemma {:induction false} DomainRowsSnoc(reg: Registry, order: seq<string>, name: string)
    ensures DomainRows(reg, order + [name]) == DomainRows(reg, order) + DomainRowsOf(reg, name)
  {
    if order == [] {
      assert order + [name] == [name] && [name][1..] == [];
    } else {
      assert (order + [name])[1..] == order[1..] + [name];
      DomainRowsSnoc(reg, order[1..], name);
    }
  }

  /** The maps of the source, by app name, as one. */
  ghost predicate Remembered(reg: Registry, done: seq<App>, placed: map<string, App>) {
    forall name :: Find(reg, done, name) == if name in placed then Some(placed[name]) else None
  }

  method ListApps(reg: Registry) returns (rows: seq<Route>, placed: map<string, App>)
    ensures rows == AppRows(reg, reg.apps) && Remembered(reg, reg.apps, placed)
  {
    rows, placed := [], map[];
    for i := 0 to |reg.apps|
      invariant rows == AppRows(reg, reg.apps[..i])
      invariant Remembered(reg, reg.apps[..i], placed)
    {
      var a := reg.apps[i];
      assert reg.apps[..i + 1] == reg.apps[..i] + [a];
      AppRowsSnoc(reg, reg.apps[..i], a);
      forall name { FindSnoc(reg, reg.apps[..i], a, name); }
      if !reg.Reachable(a) { continue; }
      placed := placed[a.name := a];
      rows := rows + [reg.RowFor(a, reg.Subdomain(a))];
    }
    assert reg.apps[..|reg.apps|] == reg.apps;
  }

  /** The rows of one app's custom domains; none for an app that was left out above. */
  method ListDomains(reg: Registry, name: string, placed: map<string, App>) returns (rows: seq<Route>)
    requires Remembered(reg, reg.apps, placed)
    ensures rows == DomainRowsOf(reg, name)
  {
    assert Find(reg, reg.apps, name) == if name in placed then Some(placed[name]) else None;
    if name !in placed || name !in reg.domains { return []; }
    var a := placed[name];
    rows := [];
    for i := 0 to |reg.domains[name]|
      invariant rows == RowsUnder(reg, a, reg.domains[name][..i])
    {
      rows := rows + [reg.RowFor(a, reg.domains[name][i])];
    }
    assert reg.domains[name][..|reg.domains[name]|] == reg.domains[name];
  }

  /** `order` is the order in which the domain map happens to be walked. */
  method BuildRows(reg: Registry, order: seq<string>) returns (rows: seq<Route>)
    ensures rows == AppRows(reg, reg.apps) + DomainRows(reg, order)
  {
    var own, placed := ListApps(reg);
    var more: seq<Route> := [];
    for i := 0 to |order|
      invariant more == DomainRows(reg, order[..i])
    {
      assert order[..i + 1] == order[..i] + [order[i]];
      DomainRowsSnoc(reg, order[..i], order[i]);
      var next := ListDomains(reg, order[i], placed);
      more := more + next;
    }
    assert order[..|order|] == order;
    rows := own + more;
  }

  // ---- Which rows these are -----------------------------------------------------------------------

  lemma {:induction false} AppRowsAre(reg: Registry, apps: seq<App>, r: Route)
    ensures r in AppRows(reg, apps) <==>
            exists i :: 0 <= i < |apps| && reg.Reachable(apps[i]) && r == reg.RowFor(apps[i], reg.Subdomain(apps[i]))
  {
    if apps != [] {
      AppRowsAre(reg, apps[1..], r);
      if i :| 0 <= i < |apps| && reg.Reachable(apps[i]) && r == reg.RowFor(apps[i], reg.Subdomain(apps[i])) {
        if i > 0 { assert apps[1..][i - 1] == apps[i]; }
      }
      if i :| 0 <= i < |apps[1..]| && reg.Reachable(apps[1..][i])
              && r == reg.RowFor(apps[1..][i], reg.Subdomain(apps[1..][i])) {
        assert apps[i + 1] == apps[1..][i];
      }
    }
  }

  lemma {:induction false} FindIs(reg: Registry, apps: seq<App>, name: string)
    ensures Find(reg, apps, name).Some? <==>
            exists i :: 0 <= i < |apps| && reg.Reachable(apps[i]) && apps[i].name == name
    ensures Find(reg, apps, name).Some? ==>
              var a := Find(reg, apps, name).value; a in apps && reg.Reachable(a) && a.name == name
  {
    if apps != [] {
      FindIs(reg, apps[1..], name);
      if i :| 0 <= i < |apps| && reg.Reachable(apps[i]) && apps[i].name == name {
        if i > 0 { assert apps[1..][i - 1] == apps[i]; }
      }
      if i :| 0 <= i < |apps[1..]| && reg.Reachable(apps[1..][i]) && apps[1..][i].name == name {
        assert apps[i + 1] == apps[1..][i];
      }
    }
  }

  lemma {:induction false} DomainRowsAre(reg: Registry, order: seq<string>, r: Route)
    ensures r in DomainRows(reg, order) <==> exists k :: 0 <= k < |order| && r in DomainRowsOf(reg, order[k])
  {
    if order != [] {
      DomainRowsAre(reg, order[1..], r);
      if k :| 0 <= k < |order| && r in DomainRowsOf(reg, order[k]) {
        if k > 0 { assert order[1..][k - 1] == order[k]; }
      }
      if k :| 0 <= k < |order[1..]| && r in DomainRowsOf(reg, order[1..][k]) {
        assert order[k + 1] == order[1..][k];
      }
    }
  }

  /** The keys of the domain map, each walked once. */
  ghost predicate Walks(reg: Registry, order: seq<string>) {
    && (forall name :: name in order <==> name in reg.domains)
    && Distinct(order)
  }

  lemma SameApp(reg: Registry, i: nat, a: App)
    requires reg.UniqueNames() && i < |reg.apps| && a in reg.apps && a.name == reg.apps[i].name
    ensures a == reg.apps[i]
  {
    var j :| 0 <= j < |reg.apps| && reg.apps[j] == a;
    assert i < j || j < i || i == j;
  }

  lemma BuiltIsWanted(reg: Registry, order: seq<string>, r: Route)
    requires reg.UniqueNames() && Walks(reg, order)
    requires r in AppRows(reg, reg.apps) + DomainRows(reg, order)
    ensures reg.Wanted(r)
  {
    AppRowsAre(reg, reg.apps, r);
    DomainRowsAre(reg, order, r);
    if r in AppRows(reg, reg.apps) {
      var i :| 0 <= i < |reg.apps| && reg.Reachable(reg.apps[i])
               && r == reg.RowFor(reg.apps[i], reg.Subdomain(reg.apps[i]));
      assert reg.Names(reg.apps[i], r.host);
    } else {
      var k :| 0 <= k < |order| && r in DomainRowsOf(reg, order[k]);
      FindIs(reg, reg.apps, order[k]);
      var a := Find(reg, reg.apps, order[k]).value;
      var i :| 0 <= i < |reg.apps| && reg.apps[i] == a;
      assert reg.Names(reg.apps[i], r.host);
    }
  }

  lemma WantedIsBuilt(reg: Registry, order: seq<string>, r: Route)
    requires reg.UniqueNames() && Walks(reg, order) && reg.Wanted(r)
    ensures r in AppRows(reg, reg.apps) + DomainRows(reg, order)
  {
    var i :| 0 <= i < |reg.apps| && reg.Reachable(reg.apps[i]) && reg.Names(reg.apps[i], r.host)
             && r == reg.RowFor(reg.apps[i], r.host);
    var a := reg.apps[i];
    if r.host == reg.Subdomain(a) {
      AppRowsAre(reg, reg.apps, r);
    } else {
      FindIs(reg, reg.apps, a.name);
      SameApp(reg, i, Find(reg, reg.apps, a.name).value);
      var hosts := reg.domains[a.name];
      var j :| 0 <= j < |hosts| && hosts[j] == r.host;
      assert RowsUnder(reg, a, hosts)[j] == r;
      var k :| 0 <= k < |order| && order[k] == a.name;
      DomainRowsAre(reg, order, r);
    }
  }

  /** Whatever the order of the walk, the table has exactly the wanted rows. */
  lemma BuiltIffWanted(reg: Registry, order: seq<string>, r: Route)
    requires reg.UniqueNames() && Walks(reg, order)
    ensures r in AppRows(reg, reg.apps) + DomainRows(reg, order) <==> reg.Wanted(r)
  {
    if reg.Wanted(r) { WantedIsBuilt(reg, order, r); }
    if r in AppRows(reg, reg.apps) + DomainRows(reg, order) { BuiltIsWanted(reg, order, r); }
  }

  // ---- The fields of a row -------------------------------------------------------------------------

  /** What a string of decimal digits says. */
  function Reading(s: string): int {
    if s == [] then 0 else 10 * Reading(s[..|s| - 1]) + (s[|s| - 1] as int - '0' as int)
  }

  /** A printed port reads as that port, in decimal digits without leading zeros. */
  lemma {:induction false} DigitsRead(n: nat)
    ensures Reading(Digits(n)) == n && Digits(n) != [] && (n > 0 ==> Digits(n)[0] != '0')
    ensures forall i :: 0 <= i < |Digits(n)| ==> '0' <= Digits(n)[i] <= '9'
  {
    if n < 10 {
      var s := Digits(n);
      assert |s| == 1 && s[..0] == [] && Reading([]) == 0;
    } else {
      DigitsRead(n / 10);
      var s, last := Digits(n / 10), ['0' + ((n % 10) as char)];
      assert (s + last)[..|s|] == s;
    }
  }

  lemma DecimalReads(n: int)
    ensures n >= 0 ==> Decimal(n) == Digits(n) && Reading(Decimal(n)) == n
    ensures n < 0 ==> Decimal(n) != [] && Decimal(n)[0] == '-' && Reading(Decimal(n)[1..]) == -n
  {
    if n >= 0 {
      DigitsRead(n);
    } else {
      DigitsRead(-n);
      assert ("-" + Digits(-n))[1..] == Digits(-n);
    }
  }

  /** `r` is the row of app `a`, field by field: on one of its names, at its node's address and
      port, private if it is, and then open to whom the store lists, in order. */
  ghost predicate RowOf(reg: Registry, a: App, r: Route) {
    && reg.address(a.host) != ""
    && (r.host == a.name + "." + reg.base || (a.name in reg.domains && r.host in reg.domains[a.name]))
    && r.app == a.name && r.isPrivate == a.isPrivate
    && r.target == reg.address(a.host) + ":" + Decimal(a.port)
    && Ascending(r.access)
    && multiset(r.access) ==
       if a.isPrivate && a.id in reg.access then multiset(reg.access[a.id]) else multiset{}
  }

  lemma RowOfIff(reg: Registry, a: App, r: Route)
    ensures RowOf(reg, a, r) <==> reg.Reachable(a) && reg.Names(a, r.host) && r == reg.RowFor(a, r.host)
  {
    SortStringsIs(reg.Allowed(a));
    if RowOf(reg, a, r) { AscendingUnique(r.access, reg.Access(a)); }
  }

  /** For every walk, the table is exactly the rows of the registry's apps. */
  lemma RowsAreApps(reg: Registry, order: seq<string>, r: Route)
    requires reg.UniqueNames() && Walks(reg, order)
    ensures r in Built(reg, order) <==> exists i :: 0 <= i < |reg.apps| && RowOf(reg, reg.apps[i], r)
  {
    BuiltIffWanted(reg, order, r);
    if reg.Wanted(r) {
      var i :| 0 <= i < |reg.apps| && reg.Reachable(reg.apps[i]) && reg.Names(reg.apps[i], r.host)
               && r == reg.RowFor(reg.apps[i], r.host);
      RowOfIff(reg, reg.apps[i], r);
    }
    if i :| 0 <= i < |reg.apps| && RowOf(reg, reg.apps[i], r) {
      RowOfIff(reg, reg.apps[i], r);
    }
  }

  /** An app is private on every name it answers to, with the same access list and target. */
  lemma SameOnEveryName(reg: Registry, r: Route, q: Route)
    requires reg.UniqueNames() && reg.Wanted(r) && reg.Wanted(q) && r.app == q.app
    ensures q == r.(host := q.host)
  {
    var i :| 0 <= i < |reg.apps| && reg.Reachable(reg.apps[i]) && reg.Names(reg.apps[i], r.host)
             && r == reg.RowFor(reg.apps[i], r.host);
    var j :| 0 <= j < |reg.apps| && reg.Reachable(reg.apps[j]) && reg.Names(reg.apps[j], q.host)
             && q == reg.RowFor(reg.apps[j], q.host);
    SameApp(reg, i, reg.apps[j]);
  }

  /** A private app's access list holds exactly who may open it, in order; and the order in which the
      store lists them does not show in any row. */
  lemma AccessIsSorted(reg: Registry, other: Registry, a: App, host: string)
    ensures a.isPrivate ==> Ascending(reg.Access(a)) && multiset(reg.Access(a)) == multiset(reg.Allowed(a))
    ensures !a.isPrivate ==> reg.Access(a) == []
    ensures reg.address == other.address && a.isPrivate ==>
              (reg.RowFor(a, host) == other.RowFor(a, host) <==> multiset(reg.Allowed(a)) == multiset(other.Allowed(a)))
  {
    SortStringsIs(reg.Allowed(a));
    SortForgetsOrder(reg.Allowed(a), other.Allowed(a));
  }

  // ---- The same registry, the same table --------------------------------------------------------------

  ghost predicate SortedByHost(rows: seq<Route>) {
    forall i, j :: 0 <= i < j < |rows| ==> !Less(rows[j].host, rows[i].host)
  }

  /** Any arrangement of `built` that is sorted: the source's sort does not say which. */
  ghost predicate SortOf(table: seq<Route>, built: seq<Route>) {
    multiset(table) == multiset(built) && SortedByHost(table)
  }

  /** No two different rows for one host. */
  ghost predicate HostDecides(rows: multiset<Route>) {
    forall r, q :: r in rows && q in rows && r.host == q.host ==> r == q
  }

  ghost predicate SameRows(a: seq<Route>, b: seq<Route>) {
    SortedByHost(a) && SortedByHost(b) && multiset(a) == multiset(b) && HostDecides(multiset(a))
  }

  lemma {:induction false} SortUnique(a: seq<Route>, b: seq<Route>)
    requires SameRows(a, b)
    ensures a == b
    decreases |a|
  {
    SameSize(a, b);
    if a != [] {
      FirstSame(a, b);
      TailsSame(a, b);
      SortUnique(a[1..], b[1..]);
      ConsSame(a, b);
    }
  }

  lemma SameSize(a: seq<Route>, b: seq<Route>)
    requires multiset(a) == multiset(b)
    ensures |a| == |b|
  {
    assert |multiset(a)| == |multiset(b)|;
  }

  lemma ConsSame(a: seq<Route>, b: seq<Route>)
    requires a != [] && b != [] && a[0] == b[0] && a[1..] == b[1..]
    ensures a == b
  {
    assert a == [a[0]] + a[1..] && b == [b[0]] + b[1..];
  }

  lemma TailsSame(a: seq<Route>, b: seq<Route>)
    requires a != [] && b != [] && a[0] == b[0] && SameRows(a, b)
    ensures SameRows(a[1..], b[1..])
  {
    TailOf(a);
    TailOf(b);
    FewerRows(multiset(a), multiset(a[1..]));
  }

  lemma TailOf(a: seq<Route>)
    requires a != [] && SortedByHost(a)
    ensures SortedByHost(a[1..]) && multiset(a[1..]) == multiset(a) - multiset{a[0]}
  {
    assert a == [a[0]] + a[1..];
  }

  lemma FewerRows(rows: multiset<Route>, fewer: multiset<Route>)
    requires HostDecides(rows) && fewer <= rows
    ensures HostDecides(fewer)
  {
  }

  lemma FirstSame(a: seq<Route>, b: seq<Route>)
    requires a != [] && b != []
    requires SortedByHost(a) && SortedByHost(b) && multiset(a) == multiset(b) && HostDecides(multiset(a))
    ensures a[0] == b[0]
  {
    assert a[0] in multiset(b) && b[0] in multiset(a);
    var i :| 0 <= i < |b| && b[i] == a[0];
    var j :| 0 <= j < |a| && a[j] == b[0];
    LessTotal(a[0].host, b[0].host);
    assert i > 0 ==> !Less(b[i].host, b[0].host);
    assert j > 0 ==> !Less(a[j].host, a[0].host);
  }

  lemma {:induction false} DomainRowsConcat(reg: Registry, a: seq<string>, b: seq<string>)
    ensures DomainRows(reg, a + b) == DomainRows(reg, a) + DomainRows(reg, b)
  {
    if a == [] {
      assert a + b == b;
    } else {
      assert (a + b)[1..] == a[1..] + b;
      DomainRowsConcat(reg, a[1..], b);
    }
  }

  /** Walking the same names in another order lists the same rows. */
  lemma {:induction false} OrderDoesNotMatter(reg: Registry, a: seq<string>, b: seq<string>)
    requires multiset(a) == multiset(b)
    ensures multiset(DomainRows(reg, a)) == multiset(DomainRows(reg, b))
    decreases |a|
  {
    assert |multiset(a)| == |multiset(b)|;
    if a != [] {
      assert a[0] in multiset(b);
      var k :| 0 <= k < |b| && b[k] == a[0];
      var rest := b[..k] + b[k + 1..];
      assert a == [a[0]] + a[1..] && b == b[..k] + ([b[k]] + b[k + 1..]);
      assert multiset(rest) == multiset(b) - multiset{b[k]};
      OrderDoesNotMatter(reg, a[1..], rest);
      MovedToFront(reg, b[..k], b[k], b[k + 1..]);
    }
  }

  lemma MovedToFront(reg: Registry, a: seq<string>, name: string, b: seq<string>)
    ensures multiset(DomainRows(reg, a + ([name] + b))) ==
            multiset(DomainRowsOf(reg, name)) + multiset(DomainRows(reg, a + b))
  {
    assert ([name] + b)[1..] == b;
    DomainRowsConcat(reg, a, [name] + b);
    DomainRowsConcat(reg, a, b);
  }

  // ---- Two walks of one map -------------------------------------------------------------------------------

  lemma {:induction false} EachOnce(order: seq<string>, name: string)
    requires Distinct(order)
    ensures multiset(order)[name] == if name in order then 1 else 0
  {
    if order != [] {
      assert order == [order[0]] + order[1..];
      EachOnce(order[1..], name);
    }
  }

  lemma WalksAgree(reg: Registry, order: seq<string>, other: seq<string>)
    requires Walks(reg, order) && Walks(reg, other)
    ensures multiset(order) == multiset(other)
  {
    forall name ensures multiset(order)[name] == multiset(other)[name] {
      EachOnce(order, name);
      EachOnce(other, name);
    }
  }

  lemma {:induction false} SomeOrder(keys: set<string>) returns (order: seq<string>)
    ensures Distinct(order) && forall name :: name in order <==> name in keys
  {
    if keys == {} {
      order := [];
    } else {
      var name :| name in keys;
      var rest := SomeOrder(keys - {name});
      order := [name] + rest;
    }
  }

  // ---- When there is one table ------------------------------------------------------------------------------

  function Built(reg: Registry, order: seq<string>): seq<Route> { AppRows(reg, reg.apps) + DomainRows(reg, order) }

  /** Whatever order the map is walked in and however equal hosts are sorted, the table is the
      same, and so are its hash and number. */
  ghost predicate OneTable(reg: Registry) {
    forall order, other, table, again ::
      Walks(reg, order) && Walks(reg, other) && SortOf(table, Built(reg, order)) && SortOf(again, Built(reg, other)) ==>
        table == again
  }

  /** No two reachable apps answer to the same name. */
  ghost predicate HostsApart(reg: Registry) {
    forall i, j, host ::
      && 0 <= i < |reg.apps| && 0 <= j < |reg.apps| && reg.Reachable(reg.apps[i]) && reg.Reachable(reg.apps[j])
      && reg.Names(reg.apps[i], host) && reg.Names(reg.apps[j], host) ==>
        i == j
  }

  lemma ApartDecides(reg: Registry, order: seq<string>)
    requires reg.UniqueNames() && Walks(reg, order) && HostsApart(reg)
    ensures HostDecides(multiset(Built(reg, order)))
  {
    var rows := Built(reg, order);
    forall r: Route, q: Route | r in multiset(rows) && q in multiset(rows) && r.host == q.host ensures r == q {
      BuiltIsWanted(reg, order, r);
      BuiltIsWanted(reg, order, q);
      var i :| 0 <= i < |reg.apps| && reg.Reachable(reg.apps[i]) && reg.Names(reg.apps[i], r.host)
               && r == reg.RowFor(reg.apps[i], r.host);
      var j :| 0 <= j < |reg.apps| && reg.Reachable(reg.apps[j]) && reg.Names(reg.apps[j], q.host)
               && q == reg.RowFor(reg.apps[j], q.host);
      assert i == j;
    }
  }

  lemma ApartIsOneTable(reg: Registry)
    requires reg.UniqueNames() && HostsApart(reg)
    ensures OneTable(reg)
  {
    forall order, other, table, again | Walks(reg, order) && Walks(reg, other)
                                        && SortOf(table, Built(reg, order)) && SortOf(again, Built(reg, other))
      ensures table == again
    {
      ApartDecides(reg, order);
      WalksAgree(reg, order, other);
      OrderDoesNotMatter(reg, order, other);
      SortUnique(table, again);
    }
  }

  // ---- Two rows for a host, two tables ------------------------------------------------------------------------

  function InsertRow(r: Route, rows: seq<Route>): seq<Route> {
    if rows != [] && Less(rows[0].host, r.host) then [rows[0]] + InsertRow(r, rows[1..]) else [r] + rows
  }

  lemma {:induction false} InsertRows(r: Route, rows: seq<Route>)
    ensures multiset(InsertRow(r, rows)) == multiset(rows) + multiset{r}
  {
    if rows != [] {
      assert rows == [rows[0]] + rows[1..];
      InsertRows(r, rows[1..]);
    }
  }

  ghost predicate NoRowBefore(host: string, rows: seq<Route>) {
    forall i :: 0 <= i < |rows| ==> !Less(rows[i].host, host)
  }

  lemma ConsSorted(r: Route, rows: seq<Route>)
    ensures SortedByHost([r] + rows) <==> SortedByHost(rows) && NoRowBefore(r.host, rows)
  {
    var all := [r] + rows;
    assert all[1..] == rows;
    if SortedByHost(all) {
      forall i, j | 0 <= i < j < |rows| ensures !Less(rows[j].host, rows[i].host) {
        assert all[i + 1] == rows[i] && all[j + 1] == rows[j];
      }
      forall i | 0 <= i < |rows| ensures !Less(rows[i].host, r.host) { assert all[i + 1] == rows[i] && all[0] == r; }
    }
  }

  lemma {:induction false} InsertSorted(r: Route, rows: seq<Route>, least: string)
    requires SortedByHost(rows)
    ensures SortedByHost(InsertRow(r, rows))
    ensures NoRowBefore(least, rows) && !Less(r.host, least) ==> NoRowBefore(least, InsertRow(r, rows))
  {
    if rows != [] {
      assert rows == [rows[0]] + rows[1..];
      ConsSorted(rows[0], rows[1..]);
      LessAsymmetric(rows[0].host, r.host);
    }
    if rows != [] && Less(rows[0].host, r.host) {
      InsertSorted(r, rows[1..], least);
      InsertSorted(r, rows[1..], rows[0].host);
      ConsSorted(rows[0], InsertRow(r, rows[1..]));
    } else {
      forall i | 0 <= i < |rows| ensures !Less(rows[i].host, r.host) {
        if i > 0 { NotLessTransitive(r.host, rows[0].host, rows[i].host); }
      }
      ConsSorted(r, rows);
    }
  }

  lemma {:induction false} SomeSort(rows: seq<Route>) returns (table: seq<Route>)
    ensures SortOf(table, rows)
  {
    if rows == [] {
      table := [];
    } else {
      var rest := SomeSort(rows[1..]);
      table := InsertRow(rows[0], rest);
      assert rows == [rows[0]] + rows[1..];
      InsertRows(rows[0], rest);
      InsertSorted(rows[0], rest, "");
    }
  }

  lemma {:induction false} InsertOrderShows(r: Route, q: Route, rows: seq<Route>)
    requires r != q && r.host == q.host
    ensures InsertRow(r, InsertRow(q, rows)) != InsertRow(q, InsertRow(r, rows))
  {
    LessAsymmetric(r.host, q.host);
    if rows != [] && Less(rows[0].host, r.host) {
      InsertOrderShows(r, q, rows[1..]);
      var a, b := InsertRow(q, rows[1..]), InsertRow(r, rows[1..]);
      assert ([rows[0]] + a)[1..] == a && ([rows[0]] + b)[1..] == b;
      assert ([rows[0]] + InsertRow(r, a))[1..] == InsertRow(r, a);
      assert ([rows[0]] + InsertRow(q, b))[1..] == InsertRow(q, b);
    } else {
      assert ([r] + ([q] + rows))[0] != ([q] + ([r] + rows))[0];
    }
  }

  lemma Without(rows: seq<Route>, r: Route) returns (rest: seq<Route>)
    requires r in rows
    ensures multiset(rows) == multiset(rest) + multiset{r}
  {
    var i :| 0 <= i < |rows| && rows[i] == r;
    rest := rows[..i] + rows[i + 1..];
    assert rows == rows[..i] + ([rows[i]] + rows[i + 1..]);
  }

  lemma TwoTables(rows: seq<Route>, r: Route, q: Route) returns (table: seq<Route>, again: seq<Route>)
    requires r in rows && q in rows && r != q && r.host == q.host
    ensures SortOf(table, rows) && SortOf(again, rows) && table != again
  {
    var one := Without(rows, r);
    assert q in multiset(rows) && q in multiset(one);
    var two := Without(one, q);
    var rest := SomeSort(two);
    InsertRows(q, rest);
    InsertRows(r, rest);
    InsertRows(r, InsertRow(q, rest));
    InsertRows(q, InsertRow(r, rest));
    InsertSorted(q, rest, "");
    InsertSorted(r, rest, "");
    InsertSorted(r, InsertRow(q, rest), "");
    InsertSorted(q, InsertRow(r, rest), "");
    InsertOrderShows(r, q, rest);
    table, again := InsertRow(r, InsertRow(q, rest)), InsertRow(q, InsertRow(r, rest));
  }

  lemma SharedHost(reg: Registry, i: nat, j: nat, host: string)
      returns (order: seq<string>, table: seq<Route>, again: seq<Route>)
    requires reg.UniqueNames() && i < |reg.apps| && j < |reg.apps| && i != j
    requires reg.Reachable(reg.apps[i]) && reg.Reachable(reg.apps[j])
    requires reg.Names(reg.apps[i], host) && reg.Names(reg.apps[j], host)
    ensures Walks(reg, order) && SortOf(table, Built(reg, order)) && SortOf(again, Built(reg, order)) && table != again
  {
    order := SomeOrder(reg.domains.Keys);
    var r, q := reg.RowFor(reg.apps[i], host), reg.RowFor(reg.apps[j], host);
    WantedIsBuilt(reg, order, r);
    WantedIsBuilt(reg, order, q);
    assert reg.apps[i].name != reg.apps[j].name by { assert i < j || j < i; }
    table, again := TwoTables(Built(reg, order), r, q);
  }

  /** The table is determined by the registry if and only if no two reachable apps answer to the
      same name. */
  lemma OneTableIff(reg: Registry)
    requires reg.UniqueNames()
    ensures OneTable(reg) <==> HostsApart(reg)
  {
    if HostsApart(reg) {
      ApartIsOneTable(reg);
    } else {
      var i, j, host :|
        && 0 <= i < |reg.apps| && 0 <= j < |reg.apps| && reg.Reachable(reg.apps[i]) && reg.Reachable(reg.apps[j])
        && reg.Names(reg.apps[i], host) && reg.Names(reg.apps[j], host) && i != j;
      var order, table, again := SharedHost(reg, i, j, host);
    }
  }

  // ---- What the store keeps --------------------------------------------------------------------------------------

  predicate HasSuffix(s: string, end: string) { |s| >= |end| && s[|s| - |end|..] == end }

  /** App names and custom domains are primary keys, and a domain under the base domain is
      refused. */
  ghost predicate Keyed(reg: Registry) {
    && reg.UniqueNames()
    && (forall name, other, host ::
          name in reg.domains && other in reg.domains && host in reg.domains[name] && host in reg.domains[other] ==>
            name == other)
    && (forall name, host :: name in reg.domains && host in reg.domains[name] ==> !HasSuffix(host, "." + reg.base))
  }

  lemma SubdomainUnder(reg: Registry, a: App)
    ensures HasSuffix(reg.Subdomain(a), "." + reg.base) && reg.Subdomain(a)[..|a.name|] == a.name
  {
    assert reg.Subdomain(a) == a.name + ("." + reg.base);
  }

  lemma KeyedNames(reg: Registry, a: App, b: App, host: string)
    requires Keyed(reg) && reg.Names(a, host) && reg.Names(b, host)
    ensures a.name == b.name
  {
    SubdomainUnder(reg, a);
    SubdomainUnder(reg, b);
    if host == reg.Subdomain(a) && host == reg.Subdomain(b) {
      assert |a.name| == |host| - |reg.base| - 1 == |b.name|;
    }
  }

  /** Two builds of a registry that the store can hold give the same table. */
  lemma SameRegistrySameTable(reg: Registry)
    requires Keyed(reg)
    ensures HostsApart(reg) && OneTable(reg)
  {
    forall i, j, host |
      && 0 <= i < |reg.apps| && 0 <= j < |reg.apps| && reg.Reachable(reg.apps[i]) && reg.Reachable(reg.apps[j])
      && reg.Names(reg.apps[i], host) && reg.Names(reg.apps[j], host)
      ensures i == j
    {
      KeyedNames(reg, reg.apps[i], reg.apps[j], host);
      assert i == j || i < j || j < i;
    }
    OneTableIff(reg);
  }

  // ---- One row for a host ------------------------------------------------------------------------------------------

  function Hosts(rows: seq<Route>): (h: seq<string>)
    ensures |h| == |rows| && forall i :: 0 <= i < |h| ==> h[i] == rows[i].host
  {
    seq(|rows|, i requires 0 <= i < |rows| => rows[i].host)
  }

  ghost predicate Disjoint(a: seq<string>, b: seq<string>) { forall x :: x in a ==> x !in b }

  lemma DistinctConcat(a: seq<Route>, b: seq<Route>)
    requires Distinct(Hosts(a)) && Distinct(Hosts(b)) && Disjoint(Hosts(a), Hosts(b))
    ensures Distinct(Hosts(a + b))
  {
    var x, y := Hosts(a), Hosts(b);
    forall i, j | 0 <= i < j < |x + y| ensures (x + y)[i] != (x + y)[j] {
      if i < |x| <= j { assert x[i] in x && y[j - |x|] in y; }
    }
    assert Hosts(a + b) == x + y;
  }

  lemma SameSubdomain(reg: Registry, a: App, b: App)
    ensures reg.Subdomain(a) == reg.Subdomain(b) <==> a.name == b.name
  {
    SubdomainUnder(reg, a);
    SubdomainUnder(reg, b);
  }

  lemma AppHostOf(reg: Registry, apps: seq<App>, k: nat) returns (a: App)
    requires k < |AppRows(reg, apps)|
    ensures a in apps && AppRows(reg, apps)[k].host == reg.Subdomain(a)
  {
    var row := AppRows(reg, apps)[k];
    AppRowsAre(reg, apps, row);
    var i :| 0 <= i < |apps| && reg.Reachable(apps[i]) && row == reg.RowFor(apps[i], reg.Subdomain(apps[i]));
    a := apps[i];
  }

  lemma OtherAppHost(reg: Registry, a: App, apps: seq<App>)
    requires forall i :: 0 <= i < |apps| ==> apps[i].name != a.name
    ensures reg.Subdomain(a) !in Hosts(AppRows(reg, apps))
  {
    var rows := AppRows(reg, apps);
    forall k | 0 <= k < |rows| ensures Hosts(rows)[k] != reg.Subdomain(a) {
      var b := AppHostOf(reg, apps, k);
      SameSubdomain(reg, a, b);
    }
  }

  lemma {:induction false} AppHostsDistinct(reg: Registry, apps: seq<App>)
    requires forall i, j :: 0 <= i < j < |apps| ==> apps[i].name != apps[j].name
    ensures Distinct(Hosts(AppRows(reg, apps)))
  {
    if apps != [] {
      var a, rest := apps[0], apps[1..];
      AppHostsDistinct(reg, rest);
      OtherAppHost(reg, a, rest);
      var first := [reg.RowFor(a, reg.Subdomain(a))];
      assert Hosts(first) == [reg.Subdomain(a)];
      if reg.Reachable(a) { DistinctConcat(first, AppRows(reg, rest)); }
    }
  }

  lemma DomainHost(reg: Registry, order: seq<string>, i: nat) returns (name: string)
    requires i < |DomainRows(reg, order)|
    ensures name in order && name in reg.domains && DomainRows(reg, order)[i].host in reg.domains[name]
  {
    var row := DomainRows(reg, order)[i];
    DomainRowsAre(reg, order, row);
    var k :| 0 <= k < |order| && row in DomainRowsOf(reg, order[k]);
    name := order[k];
  }

  lemma OtherDomainHost(reg: Registry, name: string, host: string, order: seq<string>)
    requires Keyed(reg) && name !in order && name in reg.domains && host in reg.domains[name]
    ensures host !in Hosts(DomainRows(reg, order))
  {
    var rows := DomainRows(reg, order);
    forall i | 0 <= i < |rows| ensures Hosts(rows)[i] != host {
      var other := DomainHost(reg, order, i);
    }
  }

  lemma {:induction false} DomainHostsDistinct(reg: Registry, order: seq<string>)
    requires Keyed(reg) && Distinct(order) && forall name :: name in reg.domains ==> Distinct(reg.domains[name])
    ensures Distinct(Hosts(DomainRows(reg, order)))
  {
    if order != [] {
      var name, rest := order[0], order[1..];
      DomainHostsDistinct(reg, rest);
      var first := DomainRowsOf(reg, name);
      forall x | x in Hosts(first) ensures x !in Hosts(DomainRows(reg, rest)) {
        OtherDomainHost(reg, name, x, rest);
      }
      assert Distinct(Hosts(first));
      DistinctConcat(first, DomainRows(reg, rest));
    }
  }

  lemma SubdomainIsNoDomain(reg: Registry, a: App, order: seq<string>)
    requires Keyed(reg)
    ensures reg.Subdomain(a) !in Hosts(DomainRows(reg, order))
  {
    SubdomainUnder(reg, a);
    var rows := DomainRows(reg, order);
    forall i | 0 <= i < |rows| ensures Hosts(rows)[i] != reg.Subdomain(a) {
      var name := DomainHost(reg, order, i);
    }
  }

  lemma OwnIsNoDomain(reg: Registry, order: seq<string>)
    requires Keyed(reg)
    ensures Disjoint(Hosts(AppRows(reg, reg.apps)), Hosts(DomainRows(reg, order)))
  {
    var own := AppRows(reg, reg.apps);
    forall k | 0 <= k < |own| ensures Hosts(own)[k] !in Hosts(DomainRows(reg, order)) {
      var a := AppHostOf(reg, reg.apps, k);
      SubdomainIsNoDomain(reg, a, order);
    }
  }

  /** In a registry that the store can hold, every host has one row. */
  lemma OneRowPerHost(reg: Registry, order: seq<string>)
    requires Keyed(reg) && Walks(reg, order) && forall name :: name in reg.domains ==> Distinct(reg.domains[name])
    ensures Distinct(Hosts(Built(reg, order)))
  {
    AppHostsDistinct(reg, reg.apps);
    DomainHostsDistinct(reg, order);
    OwnIsNoDomain(reg, order);
    DistinctConcat(AppRows(reg, reg.apps), DomainRows(reg, order));
  }
}
