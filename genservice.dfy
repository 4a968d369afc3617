/**
 * `MatchRoutesService` of cmdgen/genapi/genservice.go, from the captures
 * of its patterns on.  The service pattern yields, per service, the
 * `@Summary` text, the name, the group and the block between braces; the
 * block is split into lines, and each trimmed line is matched against the
 * `@Summary` and route patterns, given here as functions.
 *
 * Three key sets span the whole file: `name+group` of the services,
 * `service+path+method` of the routes and `service+routeName` of the route
 * functions, each lower-cased and concatenated without a separator.  A key
 * seen before ends the scan with an error.
 */
module GenService {
  import opened Wrappers
  import opened StringHelpers
  import Gen
  import GenRouter
  import Sequences

  /** The route pattern's captures: the HTTP method (`verb`), path, request type and response type. */
  datatype RouteMatch = RouteMatch(verb: string, path: string, requestType: string, responseType: string)

  /** The service pattern's captures: `@Summary` text, name, group and the routes block. */
  datatype ServiceMatch = ServiceMatch(summary: string, name: string, group: string, routesBlock: string)

  /** `routeSpec` */
  datatype Route = Route(verb: string, path: string, name: string, rustFulKey: string,
                         requestType: string, responseType: string, summary: string)

  /** `serviceSpec` */
  datatype Service = Service(name: string, group: string, summary: string, routes: seq<Route>)

  /**
   * The two line patterns: `route` gives the captures of a route line,
   * `summary` the text after `@Summary`; `None` where the pattern does not match.
   */
  datatype Patterns = Patterns(route: string -> Option<RouteMatch>, summary: string -> Option<string>)

  /** What a line of a routes block is to the scan. */
  datatype LineKind = Skip | SummaryLine(text: Option<string>) | RouteLine(m: RouteMatch)

  /** A line is trimmed; blank ones are skipped, `@Summary` lines are never routes. */
  function Classify(line: string, pats: Patterns): LineKind
  {
    var t := TrimSpace(line);
    if t == "" then Skip
    else if HasPrefix(t, "@Summary") then SummaryLine(pats.summary(t))
    else match pats.route(t)
      case Some(m) => RouteLine(m)
      case None => Skip
  }

  /** The `Name` of a route: `UcFirst` of each "/"-part of its path, once a trailing `:param` part is removed. */
  function RouteName(path: string): string
  {
    Gen.ConcatUcFirst(Split(ConvertRestfulURLToUri(path).0, '/'))
  }

  /** The route a matched line gives, `lastSummary` being the summary carried to it. */
  function RouteOf(service: string, m: RouteMatch, lastSummary: string): Route
  {
    var name := RouteName(m.path);
    Route(m.verb, m.path, name, ConvertRestfulURLToUri(m.path).1, m.requestType, m.responseType,
          if lastSummary == "" then UcFirst(service) + name else lastSummary)
  }

  function RouterKey(service: string, r: Route): string
  {
    ToLower(service + r.path + r.verb)
  }

  function FuncKey(service: string, r: Route): string
  {
    ToLower(service + r.name)
  }

  function ServiceKey(sm: ServiceMatch): string
  {
    ToLower(sm.name + sm.group)
  }

  /** A service without `@Summary` is summarised by its name. */
  function SummaryOf(sm: ServiceMatch): (s: string)
    ensures sm.summary == "" ==> s == sm.name
    ensures sm.summary != "" ==> s == sm.summary
  {
    if sm.summary == "" then sm.name else sm.summary
  }

  // ---------------------------------------------------------------------
  // The scan as the code performs it
  // ---------------------------------------------------------------------

  /** The state of the line loop: the carried summary, the routes so far and the file-wide route keys. */
  datatype Block = Block(lastSummary: string, routes: seq<Route>, routerKeys: set<string>, funcKeys: set<string>)

  /** One line of a routes block. */
  function BlockStep(service: string, b: Block, kind: LineKind): Result<Block>
  {
    match kind
    case Skip => Ok(b)
    case SummaryLine(text) => if text.Some? then Ok(b.(lastSummary := text.value)) else Ok(b)
    case RouteLine(m) =>
      var route := RouteOf(service, m, b.lastSummary);
      if RouterKey(service, route) in b.routerKeys then Err("router " + route.path + " is duplicated")
      else if FuncKey(service, route) in b.funcKeys then Err("func " + route.name + " is duplicated")
      else Ok(Block("", b.routes + [route], b.routerKeys + {RouterKey(service, route)}, b.funcKeys + {FuncKey(service, route)}))
  }

  /** The line loop over `lines`, from `start`, stopping at the first error. */
  function ScanBlock(service: string, lines: seq<string>, pats: Patterns, start: Block): Result<Block>
  {
    if lines == [] then Ok(start)
    else match ScanBlock(service, lines[..|lines| - 1], pats, start)
      case Err(e) => Err(e)
      case Ok(b) => BlockStep(service, b, Classify(lines[|lines| - 1], pats))
  }

  /** The state of the service loop: the three key sets and the services so far. */
  datatype Scan = Scan(serviceKeys: set<string>, routerKeys: set<string>, funcKeys: set<string>, services: seq<Service>)

  /** The lines of a routes block. */
  function BlockLines(sm: ServiceMatch): seq<string>
  {
    Split(sm.routesBlock, '\n')
  }

  /** One service: its routes, then its `name+group` key. */
  function ServiceStep(s: Scan, sm: ServiceMatch, pats: Patterns): Result<Scan>
  {
    match ScanBlock(sm.name, BlockLines(sm), pats, Block("", [], s.routerKeys, s.funcKeys))
    case Err(e) => Err(e)
    case Ok(b) =>
      if ServiceKey(sm) in s.serviceKeys then Err("Service name_group " + sm.name + "_" + sm.group + " is repeated")
      else Ok(Scan(s.serviceKeys + {ServiceKey(sm)}, b.routerKeys, b.funcKeys,
                   s.services + [Service(sm.name, sm.group, SummaryOf(sm), b.routes)]))
  }

  /** The service loop over `matches`, stopping at the first error. */
  function ScanServices(matches: seq<ServiceMatch>, pats: Patterns): Result<Scan>
  {
    if matches == [] then Ok(Scan({}, {}, {}, []))
    else match ScanServices(matches[..|matches| - 1], pats)
      case Err(e) => Err(e)
      case Ok(s) => ServiceStep(s, matches[|matches| - 1], pats)
  }

  /** What `MatchRoutesService` returns: the error, or the services `self.services` ends with. */
  function MatchResult(matches: seq<ServiceMatch>, pats: Patterns): Result<seq<Service>>
  {
    match ScanServices(matches, pats)
    case Err(e) => Err(e)
    case Ok(s) => Ok(s.services)
  }

  // ---------------------------------------------------------------------
  // The loops
  // ---------------------------------------------------------------------

  /** `MatchRoutesService(content)`: the service loop, the key sets as sets. */
  method MatchRoutesService(matches: seq<ServiceMatch>, pats: Patterns) returns (r: Result<seq<Service>>)
    ensures r == MatchResult(matches, pats)
  {
    var serviceMap: set<string> := {};
    var serviceRouterMap: set<string> := {};
    var serviceFuncMap: set<string> := {};
    var services: seq<Service> := [];
    for k := 0 to |matches|
      invariant ScanServices(matches[..k], pats) == Ok(Scan(serviceMap, serviceRouterMap, serviceFuncMap, services))
    {
      assert matches[..k + 1][..k] == matches[..k];
      var sm := matches[k];
      var summary := sm.summary;
      if summary == "" {
        summary := sm.name;
      }
      var lines := Split(sm.routesBlock, '\n');
      var block := MatchRoutes(sm.name, lines, pats, serviceRouterMap, serviceFuncMap);
      if block.Err? {
        ScanServicesStopped(matches, k, pats);
        return Err(block.msg);
      }
      var uniqueKey := ToLower(sm.name + sm.group);
      if uniqueKey in serviceMap {
        ScanServicesStopped(matches, k, pats);
        return Err("Service name_group " + sm.name + "_" + sm.group + " is repeated");
      }
      serviceMap := serviceMap + {uniqueKey};
      serviceRouterMap, serviceFuncMap := block.value.routerKeys, block.value.funcKeys;
      services := services + [Service(sm.name, sm.group, summary, block.value.routes)];
    }
    assert matches[..|matches|] == matches;
    return Ok(services);
  }

  /** An error at service `k` is the result of the whole scan. */
  lemma {:induction false} ScanServicesStopped(matches: seq<ServiceMatch>, k: nat, pats: Patterns)
    requires k < |matches| && ScanServices(matches[..k], pats).Ok?
    requires ServiceStep(ScanServices(matches[..k], pats).value, matches[k], pats).Err?
    ensures MatchResult(matches, pats) == Err(ServiceStep(ScanServices(matches[..k], pats).value, matches[k], pats).msg)
    decreases |matches| - k
  {
    var e := ServiceStep(ScanServices(matches[..k], pats).value, matches[k], pats).msg;
    assert matches[..k + 1][..k] == matches[..k];
    assert ScanServices(matches[..k + 1], pats) == Err(e);
    ErrorSticks(matches, k + 1, pats, e);
  }

  /** Once the service loop has failed it stays failed. */
  lemma {:induction false} ErrorSticks(matches: seq<ServiceMatch>, k: nat, pats: Patterns, e: string)
    requires k <= |matches| && ScanServices(matches[..k], pats) == Err(e)
    ensures ScanServices(matches, pats) == Err(e)
    decreases |matches| - k
  {
    if k == |matches| {
      assert matches[..k] == matches;
    } else {
      assert matches[..k + 1][..k] == matches[..k];
      ErrorSticks(matches, k + 1, pats, e);
    }
  }

  /** The line loop of one service, from the file-wide route keys seen so far. */
  method MatchRoutes(service: string, lines: seq<string>, pats: Patterns, routerKeys: set<string>, funcKeys: set<string>)
    returns (r: Result<Block>)
    ensures r == ScanBlock(service, lines, pats, Block("", [], routerKeys, funcKeys))
  {
    ghost var start := Block("", [], routerKeys, funcKeys);
    var serviceRouterMap, serviceFuncMap := routerKeys, funcKeys;
    var lastSummary := "";
    var routes: seq<Route> := [];
    for i := 0 to |lines|
      invariant ScanBlock(service, lines[..i], pats, start) == Ok(Block(lastSummary, routes, serviceRouterMap, serviceFuncMap))
    {
      assert lines[..i + 1][..i] == lines[..i];
      var line := TrimSpace(lines[i]);
      if line == "" {
        continue;
      }
      if HasPrefix(line, "@Summary") {
        var matches := pats.summary(line);
        if matches.Some? {
          lastSummary := matches.value;
        }
        continue;
      }
      var routeMatch := pats.route(line);
      if routeMatch.Some? {
        var nowRouter := NewRoute(service, routeMatch.value, lastSummary);
        var routerUniqueKey := ToLower(service + nowRouter.path + nowRouter.verb);
        if routerUniqueKey in serviceRouterMap {
          BlockStopped(service, lines, i, pats, start);
          return Err("router " + nowRouter.path + " is duplicated");
        }
        var funcUniqueKey := ToLower(service + nowRouter.name);
        if funcUniqueKey in serviceFuncMap {
          BlockStopped(service, lines, i, pats, start);
          return Err("func " + nowRouter.name + " is duplicated");
        }
        serviceRouterMap := serviceRouterMap + {routerUniqueKey};
        serviceFuncMap := serviceFuncMap + {funcUniqueKey};
        routes := routes + [nowRouter];
        lastSummary := "";
      }
    }
    assert lines[..|lines|] == lines;
    return Ok(Block(lastSummary, routes, serviceRouterMap, serviceFuncMap));
  }

  /** An error at line `i` is the result of the whole line loop. */
  lemma {:induction false} BlockStopped(service: string, lines: seq<string>, i: nat, pats: Patterns, start: Block)
    requires i < |lines| && ScanBlock(service, lines[..i], pats, start).Ok?
    requires BlockStep(service, ScanBlock(service, lines[..i], pats, start).value, Classify(lines[i], pats)).Err?
    ensures ScanBlock(service, lines, pats, start)
         == BlockStep(service, ScanBlock(service, lines[..i], pats, start).value, Classify(lines[i], pats))
    decreases |lines| - i
  {
    var e := BlockStep(service, ScanBlock(service, lines[..i], pats, start).value, Classify(lines[i], pats)).msg;
    assert lines[..i + 1][..i] == lines[..i];
    assert ScanBlock(service, lines[..i + 1], pats, start) == Err(e);
    BlockErrorSticks(service, lines, i + 1, pats, start, e);
  }

  /** Once the line loop has failed it stays failed. */
  lemma {:induction false} BlockErrorSticks(service: string, lines: seq<string>, i: nat, pats: Patterns, start: Block, e: string)
    requires i <= |lines| && ScanBlock(service, lines[..i], pats, start) == Err(e)
    ensures ScanBlock(service, lines, pats, start) == Err(e)
    decreases |lines| - i
  {
    if i == |lines| {
      assert lines[..i] == lines;
    } else {
      assert lines[..i + 1][..i] == lines[..i];
      BlockErrorSticks(service, lines, i + 1, pats, start, e);
    }
  }

  /** The `routeSpec` built for a matched line: `nameArr` is upper-camel-joined, the summary defaulted. */
  method NewRoute(service: string, m: RouteMatch, lastSummary: string) returns (route: Route)
    ensures route == RouteOf(service, m, lastSummary)
  {
    var (uriVal, rustFulVal) := ConvertRestfulURLToUri(m.path);
    var nameArr := Split(uriVal, '/');
    var nameVal := Gen.UpperCamel(nameArr);
    var summary := lastSummary;
    if summary == "" {
      summary := UcFirst(service) + nameVal;
    }
    route := Route(m.verb, m.path, nameVal, rustFulVal, m.requestType, m.responseType, summary);
  }

  // ---------------------------------------------------------------------
  // What the scan yields, stated without the loop state
  // ---------------------------------------------------------------------

  /** Lines that set or clear the carried summary: routes, and `@Summary` lines the pattern matches. */
  predicate Marks(kind: LineKind)
  {
    kind.RouteLine? || (kind.SummaryLine? && kind.text.Some?)
  }

  function Marker(pats: Patterns): string -> bool
  {
    line => Marks(Classify(line, pats))
  }

  /**
   * The summary pending after `lines`: the text of the last matched
   * `@Summary` line when no route line follows it, else "".
   */
  function PendingSummary(lines: seq<string>, pats: Patterns): string
  {
    var j := GenRouter.LastIndex(lines, Marker(pats));
    if j < 0 then ""
    else match Classify(lines[j], pats)
      case SummaryLine(Some(t)) => t
      case _ => ""
  }

  /** The route a line adds, summarised by `pending`: one for a route line, none otherwise. */
  function Added(service: string, kind: LineKind, pending: string): seq<Route>
  {
    if kind.RouteLine? then [RouteOf(service, kind.m, pending)] else []
  }

  /** The routes of a block: one per route line, each summarised by what is pending before it. */
  function RoutesOf(service: string, lines: seq<string>, pats: Patterns): seq<Route>
  {
    if lines == [] then []
    else
      var front := lines[..|lines| - 1];
      RoutesOf(service, front, pats) + Added(service, Classify(lines[|lines| - 1], pats), PendingSummary(front, pats))
  }

  /** The service a match gives when the scan gets through. */
  function ServiceOf(sm: ServiceMatch, pats: Patterns): Service
  {
    Service(sm.name, sm.group, SummaryOf(sm), RoutesOf(sm.name, BlockLines(sm), pats))
  }

  /** When the line loop gets through, it has built `RoutesOf` and carries `PendingSummary`. */
  lemma {:induction false} ScanBlockRoutes(service: string, lines: seq<string>, pats: Patterns, rk: set<string>, fk: set<string>)
    requires ScanBlock(service, lines, pats, Block("", [], rk, fk)).Ok?
    ensures ScanBlock(service, lines, pats, Block("", [], rk, fk)).value.routes == RoutesOf(service, lines, pats)
    ensures ScanBlock(service, lines, pats, Block("", [], rk, fk)).value.lastSummary == PendingSummary(lines, pats)
  {
    if lines != [] {
      var front := lines[..|lines| - 1];
      var kind := Classify(lines[|lines| - 1], pats);
      var b := ScanBlock(service, front, pats, Block("", [], rk, fk));
      assert b.Ok?;
      assert ScanBlock(service, lines, pats, Block("", [], rk, fk)) == BlockStep(service, b.value, kind);
      ScanBlockRoutes(service, front, pats, rk, fk);
      PendingStep(lines, pats);
      BlockStepRoutes(service, b.value, kind);
    }
  }

  /** A line that gets through adds `Added` and moves the carried summary on. */
  lemma BlockStepRoutes(service: string, b: Block, kind: LineKind)
    requires BlockStep(service, b, kind).Ok?
    ensures BlockStep(service, b, kind).value.routes == b.routes + Added(service, kind, b.lastSummary)
    ensures BlockStep(service, b, kind).value.lastSummary == match kind
      case RouteLine(_) => ""
      case SummaryLine(Some(t)) => t
      case _ => b.lastSummary
  {
    if !kind.RouteLine? {
      assert b.routes + [] == b.routes;
    }
  }

  /** The pending summary one line further on. */
  lemma PendingStep(lines: seq<string>, pats: Patterns)
    requires lines != []
    ensures var front := lines[..|lines| - 1];
      PendingSummary(lines, pats) == match Classify(lines[|lines| - 1], pats)
        case RouteLine(_) => ""
        case SummaryLine(Some(t)) => t
        case _ => PendingSummary(front, pats)
  {
    var front := lines[..|lines| - 1];
    if !Marker(pats)(lines[|lines| - 1]) {
      var j := GenRouter.LastIndex(front, Marker(pats));
      assert GenRouter.LastIndex(lines, Marker(pats)) == j;
      if j >= 0 {
        assert lines[j] == front[j];
      }
    }
  }

  // ---------------------------------------------------------------------
  // Duplicate keys
  // ---------------------------------------------------------------------

  /** The elements of `ks`. */
  function Elems(ks: seq<string>): set<string>
  {
    set k | k in ks
  }

  /** No key of `ks` occurs twice or is among `seen`. */
  ghost predicate Fresh(ks: seq<string>, seen: set<string>)
  {
    (forall i, j | 0 <= i < j < |ks| :: ks[i] != ks[j]) && forall i | 0 <= i < |ks| :: ks[i] !in seen
  }

  /** A key met twice is not fresh. */
  lemma RepeatNotFresh(ks: seq<string>, seen: set<string>, i: nat, j: nat)
    requires i < j < |ks| && ks[i] == ks[j]
    ensures !Fresh(ks, seen)
  {
  }

  /** Keys side by side are fresh when the first are, and the second are against them too. */
  lemma FreshAppend(a: seq<string>, b: seq<string>, seen: set<string>)
    ensures Fresh(a + b, seen) <==> Fresh(a, seen) && Fresh(b, seen + Elems(a))
  {
    var ab := a + b;
    if Fresh(a, seen) && Fresh(b, seen + Elems(a)) {
      forall i, j | 0 <= i < j < |ab| ensures ab[i] != ab[j] {
        if j >= |a| && i < |a| {
          assert ab[i] in Elems(a);
        }
      }
    }
    if Fresh(ab, seen) {
      forall i, j | 0 <= i < j < |a| ensures a[i] != a[j] {
        assert ab[i] == a[i] && ab[j] == a[j];
      }
      forall i | 0 <= i < |a| ensures a[i] !in seen {
        assert ab[i] == a[i];
      }
      forall i, j | 0 <= i < j < |b| ensures b[i] != b[j] {
        assert ab[|a| + i] == b[i] && ab[|a| + j] == b[j];
      }
      forall i | 0 <= i < |b| ensures b[i] !in seen + Elems(a) {
        assert ab[|a| + i] == b[i];
        forall k | 0 <= k < |a| ensures a[k] != b[i] {
          assert ab[k] == a[k];
        }
      }
    }
  }

  /** The route keys of some routes of `service`, in order. */
  function RouterKeys(service: string, routes: seq<Route>): (ks: seq<string>)
    ensures |ks| == |routes| && forall i | 0 <= i < |routes| :: ks[i] == RouterKey(service, routes[i])
  {
    if routes == [] then [] else RouterKeys(service, routes[..|routes| - 1]) + [RouterKey(service, routes[|routes| - 1])]
  }

  /** The function keys of some routes of `service`, in order. */
  function FuncKeys(service: string, routes: seq<Route>): (ks: seq<string>)
    ensures |ks| == |routes| && forall i | 0 <= i < |routes| :: ks[i] == FuncKey(service, routes[i])
  {
    if routes == [] then [] else FuncKeys(service, routes[..|routes| - 1]) + [FuncKey(service, routes[|routes| - 1])]
  }

  /** The line loop gets through exactly when the route keys and function keys it meets are fresh. */
  lemma {:induction false} ScanBlockOkIff(service: string, lines: seq<string>, pats: Patterns, rk: set<string>, fk: set<string>)
    ensures var routes := RoutesOf(service, lines, pats);
      ScanBlock(service, lines, pats, Block("", [], rk, fk)).Ok?
      <==> Fresh(RouterKeys(service, routes), rk) && Fresh(FuncKeys(service, routes), fk)
    ensures var routes := RoutesOf(service, lines, pats);
      ScanBlock(service, lines, pats, Block("", [], rk, fk)).Ok? ==>
        && ScanBlock(service, lines, pats, Block("", [], rk, fk)).value.routerKeys == rk + Elems(RouterKeys(service, routes))
        && ScanBlock(service, lines, pats, Block("", [], rk, fk)).value.funcKeys == fk + Elems(FuncKeys(service, routes))
  {
    if lines == [] {
      assert RoutesOf(service, lines, pats) == [];
    } else {
      var front := lines[..|lines| - 1];
      var kind := Classify(lines[|lines| - 1], pats);
      var routes0 := RoutesOf(service, front, pats);
      var added := Added(service, kind, PendingSummary(front, pats));
      var b := ScanBlock(service, front, pats, Block("", [], rk, fk));
      ScanBlockOkIff(service, front, pats, rk, fk);
      assert RoutesOf(service, lines, pats) == routes0 + added;
      KeysAppend(service, routes0, added);
      if b.Ok? {
        ScanBlockRoutes(service, front, pats, rk, fk);
        assert ScanBlock(service, lines, pats, Block("", [], rk, fk)) == BlockStep(service, b.value, kind);
        BlockStepKeys(service, b.value, kind);
        FreshCombine(rk, RouterKeys(service, routes0), RouterKeys(service, added), b.value.routerKeys,
                     BlockStep(service, b.value, kind).Ok?, fk, FuncKeys(service, routes0), FuncKeys(service, added), b.value.funcKeys);
      } else {
        FreshAppend(RouterKeys(service, routes0), RouterKeys(service, added), rk);
        FreshAppend(FuncKeys(service, routes0), FuncKeys(service, added), fk);
      }
    }
  }

  /**
   * Two stretches of keys checked one after the other, `ok` telling
   * whether the second check passed.
   */
  lemma FreshCombine(rk: set<string>, r0: seq<string>, r1: seq<string>, rk0: set<string>, ok: bool,
                     fk: set<string>, f0: seq<string>, f1: seq<string>, fk0: set<string>)
    requires rk0 == rk + Elems(r0) && fk0 == fk + Elems(f0)
    requires Fresh(r0, rk) && Fresh(f0, fk)
    requires ok <==> Fresh(r1, rk0) && Fresh(f1, fk0)
    ensures ok <==> Fresh(r0 + r1, rk) && Fresh(f0 + f1, fk)
    ensures rk0 + Elems(r1) == rk + Elems(r0 + r1) && fk0 + Elems(f1) == fk + Elems(f0 + f1)
  {
    FreshAppend(r0, r1, rk);
    FreshAppend(f0, f1, fk);
    ElemsAppend(r0, r1);
    ElemsAppend(f0, f1);
  }

  lemma ElemsAppend(a: seq<string>, b: seq<string>)
    ensures Elems(a + b) == Elems(a) + Elems(b)
  {
  }

  /** The keys of routes side by side. */
  lemma KeysAppend(service: string, a: seq<Route>, b: seq<Route>)
    ensures RouterKeys(service, a + b) == RouterKeys(service, a) + RouterKeys(service, b)
    ensures FuncKeys(service, a + b) == FuncKeys(service, a) + FuncKeys(service, b)
  {
    RouterKeysAppend(service, a, b);
    FuncKeysAppend(service, a, b);
  }

  lemma RouterKeysAppend(service: string, a: seq<Route>, b: seq<Route>)
    ensures RouterKeys(service, a + b) == RouterKeys(service, a) + RouterKeys(service, b)
  {
    var l, r := RouterKeys(service, a + b), RouterKeys(service, a) + RouterKeys(service, b);
    forall i | 0 <= i < |a + b| ensures l[i] == r[i] {
      if i < |a| {
        assert (a + b)[i] == a[i];
      } else {
        assert (a + b)[i] == b[i - |a|];
      }
    }
    assert l == r;
  }

  lemma FuncKeysAppend(service: string, a: seq<Route>, b: seq<Route>)
    ensures FuncKeys(service, a + b) == FuncKeys(service, a) + FuncKeys(service, b)
  {
    var l, r := FuncKeys(service, a + b), FuncKeys(service, a) + FuncKeys(service, b);
    forall i | 0 <= i < |a + b| ensures l[i] == r[i] {
      if i < |a| {
        assert (a + b)[i] == a[i];
      } else {
        assert (a + b)[i] == b[i - |a|];
      }
    }
    assert l == r;
  }

  /** One line: it gets through exactly when the keys of the route it adds are new. */
  lemma BlockStepKeys(service: string, b: Block, kind: LineKind)
    ensures var added := Added(service, kind, b.lastSummary);
      BlockStep(service, b, kind).Ok? <==> Fresh(RouterKeys(service, added), b.routerKeys) && Fresh(FuncKeys(service, added), b.funcKeys)
    ensures var added := Added(service, kind, b.lastSummary);
      BlockStep(service, b, kind).Ok? ==>
        && BlockStep(service, b, kind).value.routerKeys == b.routerKeys + Elems(RouterKeys(service, added))
        && BlockStep(service, b, kind).value.funcKeys == b.funcKeys + Elems(FuncKeys(service, added))
  {
    var added := Added(service, kind, b.lastSummary);
    if kind.RouteLine? {
      assert Elems(RouterKeys(service, added)) == {RouterKey(service, added[0])};
      assert Elems(FuncKeys(service, added)) == {FuncKey(service, added[0])};
    } else {
      assert Elems(RouterKeys(service, added)) == {} && Elems(FuncKeys(service, added)) == {};
    }
  }

  /** One service: it gets through exactly when its route, function and service keys are new. */
  lemma ServiceStepKeys(s: Scan, sm: ServiceMatch, pats: Patterns)
    ensures var routes := RoutesOf(sm.name, BlockLines(sm), pats);
      ServiceStep(s, sm, pats).Ok? <==>
        && Fresh(RouterKeys(sm.name, routes), s.routerKeys) && Fresh(FuncKeys(sm.name, routes), s.funcKeys)
        && ServiceKey(sm) !in s.serviceKeys
    ensures var routes := RoutesOf(sm.name, BlockLines(sm), pats);
      ServiceStep(s, sm, pats).Ok? ==>
        ServiceStep(s, sm, pats).value
        == Scan(s.serviceKeys + {ServiceKey(sm)}, s.routerKeys + Elems(RouterKeys(sm.name, routes)),
                s.funcKeys + Elems(FuncKeys(sm.name, routes)), s.services + [ServiceOf(sm, pats)])
  {
    var block := ScanBlock(sm.name, BlockLines(sm), pats, Block("", [], s.routerKeys, s.funcKeys));
    ScanBlockOkIff(sm.name, BlockLines(sm), pats, s.routerKeys, s.funcKeys);
    if block.Ok? {
      ScanBlockRoutes(sm.name, BlockLines(sm), pats, s.routerKeys, s.funcKeys);
    }
  }

  /** The route keys of all services, in file order. */
  function AllRouterKeys(matches: seq<ServiceMatch>, pats: Patterns): seq<string>
  {
    if matches == [] then []
    else
      var sm := matches[|matches| - 1];
      AllRouterKeys(matches[..|matches| - 1], pats) + RouterKeys(sm.name, RoutesOf(sm.name, BlockLines(sm), pats))
  }

  /** The function keys of all services, in file order. */
  function AllFuncKeys(matches: seq<ServiceMatch>, pats: Patterns): seq<string>
  {
    if matches == [] then []
    else
      var sm := matches[|matches| - 1];
      AllFuncKeys(matches[..|matches| - 1], pats) + FuncKeys(sm.name, RoutesOf(sm.name, BlockLines(sm), pats))
  }

  /** The `name+group` keys of the services, in file order. */
  function ServiceKeys(matches: seq<ServiceMatch>): (ks: seq<string>)
    ensures |ks| == |matches| && forall k | 0 <= k < |matches| :: ks[k] == ServiceKey(matches[k])
  {
    if matches == [] then [] else ServiceKeys(matches[..|matches| - 1]) + [ServiceKey(matches[|matches| - 1])]
  }

  /**
   * The scan gets through exactly when no route key, no function key and
   * no service key occurs twice in the file.
   */
  lemma {:induction false} ScanServicesOkIff(matches: seq<ServiceMatch>, pats: Patterns)
    ensures ScanServices(matches, pats).Ok? <==>
      Fresh(AllRouterKeys(matches, pats), {}) && Fresh(AllFuncKeys(matches, pats), {}) && Fresh(ServiceKeys(matches), {})
    ensures ScanServices(matches, pats).Ok? ==>
      && ScanServices(matches, pats).value.serviceKeys == Elems(ServiceKeys(matches))
      && ScanServices(matches, pats).value.routerKeys == Elems(AllRouterKeys(matches, pats))
      && ScanServices(matches, pats).value.funcKeys == Elems(AllFuncKeys(matches, pats))
  {
    if matches == [] {
      assert ServiceKeys(matches) == [];
    } else {
      var n := |matches| - 1;
      var front := matches[..n];
      var sm := matches[n];
      var routes := RoutesOf(sm.name, BlockLines(sm), pats);
      var s0 := ScanServices(front, pats);
      ScanServicesOkIff(front, pats);
      if s0.Ok? {
        ServiceStepKeys(s0.value, sm, pats);
        StepCombine(AllRouterKeys(front, pats), RouterKeys(sm.name, routes), AllFuncKeys(front, pats), FuncKeys(sm.name, routes),
                    ServiceKeys(front), ServiceKey(sm), s0.value.routerKeys, s0.value.funcKeys, s0.value.serviceKeys,
                    ServiceStep(s0.value, sm, pats).Ok?);
      } else {
        FreshAppend(AllRouterKeys(front, pats), RouterKeys(sm.name, routes), {});
        FreshAppend(AllFuncKeys(front, pats), FuncKeys(sm.name, routes), {});
        FreshAppend(ServiceKeys(front), [ServiceKey(sm)], {});
      }
    }
  }

  /** The three key families one service further on, `ok` telling whether its checks passed. */
  lemma StepCombine(r0: seq<string>, r1: seq<string>, f0: seq<string>, f1: seq<string>, k0: seq<string>, key: string,
                    rk: set<string>, fk: set<string>, sk: set<string>, ok: bool)
    requires rk == Elems(r0) && fk == Elems(f0) && sk == Elems(k0)
    requires Fresh(r0, {}) && Fresh(f0, {}) && Fresh(k0, {})
    requires ok <==> Fresh(r1, rk) && Fresh(f1, fk) && key !in sk
    ensures ok <==> Fresh(r0 + r1, {}) && Fresh(f0 + f1, {}) && Fresh(k0 + [key], {})
    ensures rk + Elems(r1) == Elems(r0 + r1) && fk + Elems(f1) == Elems(f0 + f1) && sk + {key} == Elems(k0 + [key])
  {
    FreshAppend(r0, r1, {});
    FreshAppend(f0, f1, {});
    FreshAppend(k0, [key], {});
    ElemsAppend(r0, r1);
    ElemsAppend(f0, f1);
    ElemsAppend(k0, [key]);
    assert {} + rk == rk && {} + fk == fk && {} + sk == sk;
  }

  /** One service per match, in file order. */
  function ServicesOf(matches: seq<ServiceMatch>, pats: Patterns): (ss: seq<Service>)
    ensures |ss| == |matches|
  {
    if matches == [] then []
    else ServicesOf(matches[..|matches| - 1], pats) + [ServiceOf(matches[|matches| - 1], pats)]
  }

  /** When the scan gets through it yields `ServicesOf`. */
  lemma {:induction false} ScanServicesInOrder(matches: seq<ServiceMatch>, pats: Patterns)
    requires ScanServices(matches, pats).Ok?
    ensures ScanServices(matches, pats).value.services == ServicesOf(matches, pats)
  {
    if matches != [] {
      var n := |matches| - 1;
      var front := matches[..n];
      var s0 := ScanServices(front, pats);
      assert s0.Ok?;
      ScanServicesInOrder(front, pats);
      ServiceStepKeys(s0.value, matches[n], pats);
    }
  }

  /**
   * `MatchRoutesService` fails exactly when some key repeats in the file,
   * and otherwise yields one service per match, in file order.
   */
  lemma MatchResultMeaning(matches: seq<ServiceMatch>, pats: Patterns)
    ensures MatchResult(matches, pats).Ok? <==>
      Fresh(AllRouterKeys(matches, pats), {}) && Fresh(AllFuncKeys(matches, pats), {}) && Fresh(ServiceKeys(matches), {})
    ensures MatchResult(matches, pats).Ok? ==> MatchResult(matches, pats).value == ServicesOf(matches, pats)
  {
    ScanServicesOkIff(matches, pats);
    if ScanServices(matches, pats).Ok? {
      ScanServicesInOrder(matches, pats);
    }
  }

  // ---------------------------------------------------------------------
  // Route names
  // ---------------------------------------------------------------------

  /** A trailing `:param` part is left out of the name and becomes the `RustFulKey`. */
  lemma RouteNameWithParam(base: string, param: string)
    requires '/' !in param
    ensures RouteName(base + "/:" + param) == Gen.ConcatUcFirst(Split(base, '/'))
    ensures ConvertRestfulURLToUri(base + "/:" + param).1 == param
  {
    ParamPathParts(base, param);
  }

  /** A path ending in `/:param` is cut into the path before it and the parameter. */
  lemma ParamPathParts(base: string, param: string)
    requires '/' !in param
    ensures ConvertRestfulURLToUri(base + "/:" + param) == (base, param)
  {
    var path := base + "/:" + param;
    var tail := [':'] + param;
    assert path == base + ['/'] + tail by {
      assert "/:" == ['/'] + [':'];
      Sequences.AppendAssoc(base, ['/'], [':']);
      Sequences.AppendAssoc(base + ['/'], [':'], param);
    }
    var front := Split(base, '/');
    assert Split(path, '/') == front + [tail] by {
      Gen.SplitOfPlain(base, tail);
    }
    Sequences.AppendSlices(front, [tail]);
    assert tail[1..] == param;
    JoinSplit(base, '/');
  }

  /** `/user/:id` is named `User` and keyed by `id`. */
  lemma RouteNameExample()
    ensures RouteName("/user/:id") == "User"
    ensures ConvertRestfulURLToUri("/user/:id").1 == "id"
  {
    assert "/user" + "/:" + "id" == "/user/:id";
    RouteNameWithParam("/user", "id");
    assert Split("/user", '/') == ["", "user"] by {
      assert "/" + "user" == "/user";
      SplitRootedName("user");
    }
    UserInCamelCase();
  }

  /** The parts of `/user` in upper camel case. */
  lemma UserInCamelCase()
    ensures Gen.ConcatUcFirst(["", "user"]) == "User"
  {
    assert UcFirst("user") == "User" by {
      var r := UcFirst("user");
      assert r == [r[0]] + r[1..];
    }
    assert Gen.ConcatUcFirst(["", "user"]) == UcFirst("") + (UcFirst("user") + Gen.ConcatUcFirst([])) by {
      assert ["", "user"][1..] == ["user"] && ["user"][1..] == [];
    }
  }

  /** A rooted single-part path splits into "" and the part. */
  lemma SplitRootedName(name: string)
    requires '/' !in name
    ensures Split("/" + name, '/') == ["", name]
  {
    Gen.SplitOfPlain("", name);
    assert "" + ['/'] + name == "/" + name;
  }

  // ---------------------------------------------------------------------
  // Keys concatenated without a separator
  // ---------------------------------------------------------------------

  /** A route of two plain parts, `/x/y`, is named `UcFirst(x) + UcFirst(y)`. */
  lemma RouteNameTwoParts(x: string, y: string)
    requires '/' !in x && '/' !in y && (y == [] || y[0] != ':')
    ensures RouteName("/" + x + "/" + y) == UcFirst(x) + UcFirst(y)
  {
    var path := "/" + x + "/" + y;
    Gen.SplitOfPlain("/" + x, y);
    SplitRootedName(x);
    assert path == ("/" + x) + ['/'] + y;
    var parts := Split(path, '/');
    assert parts == ["", x, y];
    assert ConvertRestfulURLToUri(path).0 == path;
    assert Gen.ConcatUcFirst([y]) == UcFirst(y) by {
      assert [y][1..] == [];
    }
    assert Gen.ConcatUcFirst([x, y]) == UcFirst(x) + UcFirst(y) by {
      assert [x, y][1..] == [y];
    }
    assert Gen.ConcatUcFirst(["", x, y]) == UcFirst(x) + UcFirst(y) by {
      assert ["", x, y][1..] == [x, y];
    }
  }

  /** A route of one plain part, `/y`, is named `UcFirst(y)`. */
  lemma RouteNameOnePart(y: string)
    requires '/' !in y && (y == [] || y[0] != ':')
    ensures RouteName("/" + y) == UcFirst(y)
  {
    SplitRootedName(y);
    var parts := Split("/" + y, '/');
    assert ConvertRestfulURLToUri("/" + y).0 == "/" + y;
    assert Gen.ConcatUcFirst([y]) == UcFirst(y) by {
      assert [y][1..] == [];
    }
    assert Gen.ConcatUcFirst(["", y]) == UcFirst(y) by {
      assert ["", y][1..] == [y];
    }
  }

  /** The routes of a block that is a single route line. */
  lemma OneLineRoutes(service: string, lines: seq<string>, pats: Patterns, m: RouteMatch)
    requires |lines| == 1 && Classify(lines[0], pats) == RouteLine(m)
    ensures RoutesOf(service, lines, pats) == [RouteOf(service, m, "")]
  {
    var front := lines[..0];
    assert front == [];
    NothingPending(pats);
    assert RoutesOf(service, lines, pats) == RoutesOf(service, front, pats) + Added(service, Classify(lines[0], pats), PendingSummary(front, pats));
    assert Added(service, RouteLine(m), "") == [RouteOf(service, m, "")];
  }

  lemma NothingPending(pats: Patterns)
    ensures PendingSummary([], pats) == ""
  {
  }

  /** A routes block without a line break is one line. */
  lemma OneLineBlock(sm: ServiceMatch)
    requires '\n' !in sm.routesBlock
    ensures BlockLines(sm) == [sm.routesBlock]
  {
    SplitFirst(sm.routesBlock, '\n', "");
  }

  lemma FuncKeysSingle(service: string, r: Route)
    ensures FuncKeys(service, [r]) == [FuncKey(service, r)]
  {
    assert [r][..0] == [];
  }

  /** The function keys of a file of two services. */
  lemma FuncKeysOfTwo(matches: seq<ServiceMatch>, pats: Patterns)
    requires |matches| == 2
    ensures AllFuncKeys(matches, pats)
         == FuncKeys(matches[0].name, RoutesOf(matches[0].name, BlockLines(matches[0]), pats))
          + FuncKeys(matches[1].name, RoutesOf(matches[1].name, BlockLines(matches[1]), pats))
  {
    var front := matches[..1];
    var k0 := FuncKeys(matches[0].name, RoutesOf(matches[0].name, BlockLines(matches[0]), pats));
    var k1 := FuncKeys(matches[1].name, RoutesOf(matches[1].name, BlockLines(matches[1]), pats));
    assert front[..0] == [] && front[0] == matches[0];
    assert AllFuncKeys(front, pats) == AllFuncKeys([], pats) + k0;
    assert AllFuncKeys(front, pats) == k0;
    assert AllFuncKeys(matches, pats) == AllFuncKeys(front, pats) + k1;
  }

  /**
   * Keys are concatenated without a separator: service `n` with route
   * `/x/y` and service `n + UcFirst(x)` with route `/y` give the same
   * function key, so the second is reported as a duplicate although the
   * routes differ (`User` with `/info/get` and `UserInfo` with `/get`).
   */
  lemma FuncKeysCollide(matches: seq<ServiceMatch>, x: string, y: string, m1: RouteMatch, m2: RouteMatch, pats: Patterns)
    requires '/' !in x && '/' !in y && (y == [] || y[0] != ':')
    requires |matches| == 2 && matches[1].name == matches[0].name + UcFirst(x)
    requires '\n' !in matches[0].routesBlock && Classify(matches[0].routesBlock, pats) == RouteLine(m1) && m1.path == "/" + x + "/" + y
    requires '\n' !in matches[1].routesBlock && Classify(matches[1].routesBlock, pats) == RouteLine(m2) && m2.path == "/" + y
    ensures MatchResult(matches, pats).Err?
  {
    CollidingNames(matches[0].name, x, y, m1, m2);
    TwoFuncKeys(matches, pats, m1, m2);
    DuplicateFuncKey(matches, pats, FuncKey(matches[0].name, RouteOf(matches[0].name, m1, "")));
  }

  /** A file whose two function keys are equal is refused. */
  lemma DuplicateFuncKey(matches: seq<ServiceMatch>, pats: Patterns, k: string)
    requires AllFuncKeys(matches, pats) == [k] + [k]
    ensures MatchResult(matches, pats).Err?
  {
    PairNotFresh(k);
    MatchResultMeaning(matches, pats);
  }

  /** The same key twice is not fresh. */
  lemma PairNotFresh(k: string)
    ensures !Fresh([k] + [k], {})
  {
    var ks := [k] + [k];
    assert ks[0] == k && ks[1] == k;
    RepeatNotFresh(ks, {}, 0, 1);
  }

  /** The function keys of the two routes of `FuncKeysCollide` are equal. */
  lemma CollidingNames(n: string, x: string, y: string, m1: RouteMatch, m2: RouteMatch)
    requires '/' !in x && '/' !in y && (y == [] || y[0] != ':')
    requires m1.path == "/" + x + "/" + y && m2.path == "/" + y
    ensures FuncKey(n, RouteOf(n, m1, "")) == FuncKey(n + UcFirst(x), RouteOf(n + UcFirst(x), m2, ""))
  {
    RouteNameTwoParts(x, y);
    RouteNameOnePart(y);
    Sequences.AppendAssoc(n, UcFirst(x), UcFirst(y));
  }

  /** The function keys of two services of one route line each. */
  lemma TwoFuncKeys(matches: seq<ServiceMatch>, pats: Patterns, m1: RouteMatch, m2: RouteMatch)
    requires |matches| == 2
    requires '\n' !in matches[0].routesBlock && Classify(matches[0].routesBlock, pats) == RouteLine(m1)
    requires '\n' !in matches[1].routesBlock && Classify(matches[1].routesBlock, pats) == RouteLine(m2)
    ensures AllFuncKeys(matches, pats)
         == [FuncKey(matches[0].name, RouteOf(matches[0].name, m1, ""))] + [FuncKey(matches[1].name, RouteOf(matches[1].name, m2, ""))]
  {
    FuncKeysOfTwo(matches, pats);
    OneRouteService(matches[0], pats, m1);
    OneRouteService(matches[1], pats, m2);
  }

  /** The function keys of a service whose block is one route line. */
  lemma OneRouteService(sm: ServiceMatch, pats: Patterns, m: RouteMatch)
    requires '\n' !in sm.routesBlock && Classify(sm.routesBlock, pats) == RouteLine(m)
    ensures FuncKeys(sm.name, RoutesOf(sm.name, BlockLines(sm), pats)) == [FuncKey(sm.name, RouteOf(sm.name, m, ""))]
  {
    OneLineBlock(sm);
    OneLineRoutes(sm.name, BlockLines(sm), pats, m);
    FuncKeysSingle(sm.name, RouteOf(sm.name, m, ""));
  }
}
