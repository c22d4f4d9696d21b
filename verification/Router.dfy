/** `LLMRouter` of `agents/llm_wrapper.py`: wrappers by task, with fallbacks and a cache. */
module Router {
  import opened Basics
  import opened Texts

  datatype Route = Route(provider: string, model: string)

  /** The identity tells apart the wrappers that the factory has made. */
  datatype Wrapper = Wrapper(id: nat, route: Route)

  /** What the factory does for a route: it makes a wrapper, returns none, or raises an exception. */
  datatype Factory = Makes | ReturnsNone | Raises

  datatype Answer =
    | Ok(wrapper: Wrapper)
    | UnknownTask(task: string)
    | NoProvider(task: string)
    | CreateFailed
    | FactoryRaised
    | RecursionError

  type Routing = map<string, Route>
  type Fallbacks = map<string, string>

  const MODEL_ROUTING: Routing := map[
    "spec" := Route("google", "gemini-2.0-flash"),
    "code" := Route("openai", "gpt-4o"),
    "analysis" := Route("anthropic", "claude-sonnet-4-20250514"),
    "refactor" := Route("google", "gemini-2.0-flash"),
    "review" := Route("anthropic", "claude-sonnet-4-20250514")
  ]

  const MODEL_ROUTING_FALLBACKS: Fallbacks := map[
    "spec" := "code",
    "code" := "analysis",
    "analysis" := "code",
    "refactor" := "code",
    "review" := "analysis"
  ]

  // ----- The factory

  /** A stored profile: its provider, the credentials and the other settings it passes on. */
  datatype Profile = Profile(provider: string, apiKey: Option<string>, apiKeyRef: bool, baseUrl: bool)

  /** What the factory finds outside: the stored profiles, the default one, and which OAuth credentials
      can be parsed. */
  datatype Surroundings = Surroundings(candidates: seq<Profile>, default: Option<Profile>, parses: set<string>)

  /** The settings that a route names itself: a model, a timeout and a number of retries, and no more. */
  function Named(provider: string): Profile {
    Profile(provider, None, false, false)
  }

  /** Constructors refuse settings they have no parameter for; keys are not checked until the first use. */
  function MakeFor(e: Surroundings, p: Profile): Factory {
    if p.provider == "openai" || p.provider == "qwen" then if p.apiKeyRef then Raises else Makes
    else if p.provider == "anthropic" || p.provider == "google" then if p.apiKeyRef || p.baseUrl then Raises else Makes
    else if p.provider == "qwen-code" then
      if p.apiKey.Some? && Strip(p.apiKey.value) != "" && p.apiKey.value in e.parses then Makes else Raises
    else Raises
  }

  /** `get_llm_wrapper`: profiles are looked at only when the route names no provider. */
  function GetLlmWrapper(e: Surroundings, route: Route): Factory {
    var provider := Lower(Strip(route.provider));
    if provider != "" then MakeFor(e, Named(provider))
    else if |e.candidates| > 1 then Makes
    else if |e.candidates| == 1 then MakeFor(e, e.candidates[0])
    else if e.default.Some? then MakeFor(e, e.default.value)
    else ReturnsNone
  }

  predicate Blank(route: Route) {
    Lower(Strip(route.provider)) == ""
  }

  /** None is returned only for a route without a provider when there is no profile at all. */
  lemma NoneExactly(e: Surroundings, route: Route)
    ensures GetLlmWrapper(e, route) == ReturnsNone <==> Blank(route) && e.candidates == [] && e.default.None?
  {
  }

  /** A route that names its provider gets a wrapper for the four plain providers and an exception for
      any other, OAuth included: a route has no place for the credentials. */
  lemma NamedProviderExactly(e: Surroundings, route: Route)
    requires !Blank(route)
    ensures
      var provider := Lower(Strip(route.provider));
      GetLlmWrapper(e, route)
      == if provider == "openai" || provider == "anthropic" || provider == "google" || provider == "qwen"
         then Makes else Raises
  {
    assert |"qwen-code"| == 9 && |"openai"| == 6 && |"google"| == 6 && |"qwen"| == 4;
    assert "anthropic"[0] == 'a' && "qwen-code"[0] == 'q';
  }

  /** The profile can be passed to the constructor of its provider: no reference to a key, a base URL only where
      there is a parameter for it, and for OAuth a key that can be parsed as credentials. */
  predicate Usable(e: Surroundings, p: Profile) {
    match p.provider
    case "openai" => !p.apiKeyRef
    case "qwen" => !p.apiKeyRef
    case "anthropic" => !p.apiKeyRef && !p.baseUrl
    case "google" => !p.apiKeyRef && !p.baseUrl
    case "qwen-code" => p.apiKey.Some? && Strip(p.apiKey.value) != "" && p.apiKey.value in e.parses
    case _ => false
  }

  /** A route that names no provider falls back on the profiles: several make a router of their own, a single one
      or else the default one is used when it is usable, and without any there is no wrapper. */
  lemma ProfilesDecide(e: Surroundings, route: Route)
    requires Blank(route)
    ensures
      GetLlmWrapper(e, route)
      == if |e.candidates| > 1 then Makes
         else if e.candidates == [] && e.default.None? then ReturnsNone
         else if Usable(e, if e.candidates != [] then e.candidates[0] else e.default.value) then Makes
         else Raises
  {
    hide Lower, Strip;
    if |e.candidates| == 1 {
      UsableExactly(e, e.candidates[0]);
    } else if e.candidates == [] && e.default.Some? {
      UsableExactly(e, e.default.value);
    }
  }

  lemma UsableExactly(e: Surroundings, p: Profile)
    ensures MakeFor(e, p) == if Usable(e, p) then Makes else Raises
  {
    hide Strip;
    assert |"qwen-code"| == |"anthropic"| == 9 && |"openai"| == |"google"| == 6 && |"qwen"| == 4;
    assert "anthropic"[0] == 'a' && "qwen-code"[0] == 'q' && "openai"[0] == 'o' && "google"[0] == 'g';
  }

  // ----- Keys

  function Key(r: Route): string {
    r.provider + ":" + r.model
  }

  // ----- What a request for a task comes to

  /** The task at which the request ends, and how. */
  datatype Served = Cached(task: string) | New(task: string) | Unknown(task: string)
      | Exhausted(task: string) | Raised | TooDeep

  /** What the factory does for each routed task, the fallbacks, and the tasks that are cached. */
  datatype Setting = Setting(outcomes: map<string, Factory>, fallbacks: Fallbacks, cached: set<string>)

  function Outcomes(routing: Routing, e: Surroundings): map<string, Factory> {
    map t | t in routing :: GetLlmWrapper(e, routing[t])
  }

  /** The request passes on to a fallback of the task. */
  predicate PassesOn(s: Setting, task: string) {
    && task in s.outcomes && task !in s.cached && s.outcomes[task] == ReturnsNone
    && task in s.fallbacks && s.fallbacks[task] != ""
  }

  function End(s: Setting, task: string): Served {
    if task !in s.outcomes then Unknown(task)
    else if task in s.cached then Cached(task)
    else match s.outcomes[task]
      case Makes => New(task)
      case ReturnsNone => Exhausted(task)
      case Raises => Raised
  }

  /** With room for the given number of nested calls. */
  function Resolve(s: Setting, task: string, depth: nat): Served
    decreases depth
  {
    if depth == 0 then TooDeep
    else if PassesOn(s, task) then Resolve(s, s.fallbacks[task], depth - 1)
    else End(s, task)
  }

  class LLMRouter {
    var routing: Routing
    const fallbacks: Fallbacks
    var cache: map<string, Wrapper>
    /** Wrappers made so far, and those closed. */
    var made: nat
    var closed: set<nat>
    /** No task and no provider asked for by name has had a colon in its name. */
    ghost var plain: bool

    /** Each task that is cached has a wrapper for the route it has now. */
    ghost predicate Fit()
      reads this
    {
      forall t :: t in routing && t in cache ==> cache[t].route == routing[t]
    }

    /** Every entry belongs to the current route of its task or to the model that its key names. */
    ghost predicate Coherent()
      reads this
    {
      forall k :: k in cache ==>
        if ':' in k then k == Key(cache[k].route) && ':' !in cache[k].route.provider
        else k in routing && cache[k].route == routing[k]
    }

    ghost predicate Valid()
      reads this
    {
      && (plain ==> Coherent() && forall t :: t in routing ==> ':' !in t)
      && (forall k :: k in cache ==> cache[k].id < made && cache[k].id !in closed)
      && (forall i :: i in closed ==> i < made)
    }

    ghost function SettingFor(surroundings: Surroundings): Setting
      reads this
    {
      Setting(Outcomes(routing, surroundings), fallbacks, cache.Keys)
    }

    /** A request for a model puts no wrapper under the name of a task that is routed elsewhere. */
    ghost predicate KeepsFit(route: Route, surroundings: Surroundings)
      reads this
    {
      || Key(route) in cache || GetLlmWrapper(surroundings, route) != Makes
      || Key(route) !in routing || routing[Key(route)] == route
    }

    constructor (customRouting: Option<Routing>)
      ensures Valid() && Fit() && cache == map[] && fallbacks == MODEL_ROUTING_FALLBACKS
      ensures routing == if customRouting.Some? && customRouting.value != map[]
                       then customRouting.value else MODEL_ROUTING
      ensures plain <==> forall t :: t in routing ==> ':' !in t
    {
      routing := if customRouting.Some? && customRouting.value != map[] then customRouting.value else MODEL_ROUTING;
      fallbacks := MODEL_ROUTING_FALLBACKS;
      cache, made, closed := map[], 0, {};
      new;
      plain := forall t :: t in routing ==> ':' !in t;
    }

    method Make(route: Route, outcome: Factory) returns (wrapper: Option<Wrapper>)
      requires Valid() && outcome != Raises
      modifies `made
      ensures wrapper == if outcome == Makes then Some(Wrapper(old(made), route)) else None
      ensures made == if outcome == Makes then old(made) + 1 else old(made)
    {
      if outcome == Makes {
        wrapper := Some(Wrapper(made, route));
        made := made + 1;
      } else {
        wrapper := None;
      }
    }

    /** Python's limit on nested calls stands for the depth. */
    method ForTask(task: string, surroundings: Surroundings, depth: nat) returns (r: Answer)
      requires Valid()
      modifies `cache, `made
      ensures Valid() && (old(Fit()) ==> Fit())
      ensures match old(Resolve(SettingFor(surroundings), task, depth))
              case Cached(t) => t in old(cache) && r == Ok(old(cache[t])) && cache == old(cache)
              case New(t) =>
                t in routing && r == Ok(Wrapper(old(made), routing[t])) && cache == old(cache)[t := r.wrapper]
              case Unknown(t) => r == UnknownTask(t) && cache == old(cache)
              case Exhausted(t) => r == NoProvider(t) && cache == old(cache)
              case Raised => r == FactoryRaised && cache == old(cache)
              case TooDeep => r == RecursionError && cache == old(cache)
      decreases depth
    {
      hide GetLlmWrapper;
      if depth == 0 {
        return RecursionError;
      }
      if task !in routing {
        return UnknownTask(task);
      }
      if task in cache {
        return Ok(cache[task]);
      }
      var route := routing[task];
      var outcome := GetLlmWrapper(surroundings, route);
      if outcome == Raises {
        return FactoryRaised;
      }
      var wrapper := Make(route, outcome);
      if wrapper.None? {
        if task in fallbacks && fallbacks[task] != "" {
          r := ForTask(fallbacks[task], surroundings, depth - 1);
          return;
        }
        return NoProvider(task);
      }
      cache := cache[task := wrapper.value];
      return Ok(wrapper.value);
    }

    method ForModel(provider: string, model: string, surroundings: Surroundings) returns (r: Answer)
      requires Valid()
      modifies `cache, `made, `plain
      ensures Valid() && plain == (old(plain) && ':' !in provider)
      ensures
        var route := Route(provider, model);
        if Key(route) in old(cache) then r == Ok(old(cache[Key(route)])) && cache == old(cache)
        else match GetLlmWrapper(surroundings, route)
          case Makes => r == Ok(Wrapper(old(made), route)) && cache == old(cache)[Key(route) := r.wrapper]
          case ReturnsNone => r == CreateFailed && cache == old(cache)
          case Raises => r == FactoryRaised && cache == old(cache)
      ensures old(Fit()) ==> (Fit() <==> old(KeepsFit(Route(provider, model), surroundings)))
      ensures plain && r.Ok? ==> r.wrapper.route == Route(provider, model)
    {
      hide GetLlmWrapper;
      var route := Route(provider, model);
      plain := plain && ':' !in provider;
      assert Key(route)[|provider|] == ':';
      if Key(route) in cache {
        if plain {
          KeyIsInjective(route, cache[Key(route)].route);
        }
        return Ok(cache[Key(route)]);
      }
      var outcome := GetLlmWrapper(surroundings, route);
      if outcome == Raises {
        return FactoryRaised;
      }
      var wrapper := Make(route, outcome);
      if wrapper.None? {
        return CreateFailed;
      }
      assert forall t :: t in routing && t in cache ==> t != Key(route);
      cache := cache[Key(route) := wrapper.value];
      assert Fit() ==> Key(route) !in routing || routing[Key(route)] == route;
      return Ok(wrapper.value);
    }

    /** The wrapper that is dropped from the cache is not closed. */
    method SetCustomRoute(task: string, provider: string, model: string)
      requires Valid()
      modifies `routing, `cache, `plain
      ensures Valid() && plain == (old(plain) && ':' !in task) && (old(Fit()) ==> Fit())
      ensures routing == old(routing)[task := Route(provider, model)]
      ensures cache == old(cache) - {task}
    {
      routing := routing[task := Route(provider, model)];
      cache := cache - {task};
      plain := plain && ':' !in task;
    }

    method CloseAll()
      requires Valid()
      modifies `cache, `closed
      ensures Valid() && Fit() && cache == map[]
      ensures closed == old(closed) + Ids(old(cache))
    {
      var ids := Close(cache);
      closed := closed + ids;
      cache := map[];
    }

    static method Close(wrappers: map<string, Wrapper>) returns (ids: set<nat>)
      ensures ids == Ids(wrappers)
    {
      ids := {};
      var left := wrappers;
      while left != map[]
        invariant ids + Ids(left) == Ids(wrappers)
        decreases |left|
      {
        var k :| k in left;
        IdsOfOneAndRest(left, k);
        ids := ids + {left[k].id};
        left := left - {k};
      }
      IdsOfNone();
    }
  }

  function Ids(cache: map<string, Wrapper>): set<nat> {
    set k | k in cache :: cache[k].id
  }

  lemma IdsOfOneAndRest(cache: map<string, Wrapper>, k: string)
    requires k in cache
    ensures Ids(cache) == {cache[k].id} + Ids(cache - {k})
  {
    var rest := cache - {k};
    assert forall l :: l in cache ==> l == k || (l in rest && rest[l] == cache[l]);
    assert forall l :: l in rest ==> l in cache && rest[l] == cache[l];
  }

  lemma IdsOfNone()
    ensures Ids(map[]) == {}
  {
  }

  lemma KeyIsInjective(a: Route, b: Route)
    requires Key(a) == Key(b) && ':' !in a.provider && ':' !in b.provider
    ensures a == b
  {
    var k := Key(a);
    assert k[|a.provider|] == ':' && k[|b.provider|] == ':';
    assert forall i :: 0 <= i < |a.provider| ==> k[i] == a.provider[i] && a.provider[i] != ':';
    assert forall i :: 0 <= i < |b.provider| ==> k[i] == b.provider[i] && b.provider[i] != ':';
    assert |a.provider| == |b.provider|;
    assert a.provider == k[..|a.provider|] == b.provider;
    assert a.model == k[|a.provider| + 1..] == b.model;
  }

  /** A task whose name looks like a provider and a model is given a wrapper for that model instead of
      the one it is routed to. */
  method CollidingNames(surroundings: Surroundings) returns (r: Answer, wanted: Route)
    ensures r.Ok? && r.wrapper.route != wanted
  {
    var task := "openai" + ":" + "m";
    var asked := Route("openai", "m");
    wanted := Route("google", "m");
    assert "openai"[0] == 'o' && "google"[0] == 'g';
    OpenaiIsMade(surroundings, asked);
    var router := new LLMRouter(Some(map[task := wanted]));
    assert task in map[task := wanted];
    assert Key(asked) == task;
    var w := router.ForModel("openai", "m", surroundings);
    assert task in router.cache && router.cache[task].route == asked;
    r := router.ForTask(task, surroundings, 1);
  }

  lemma OpenaiIsMade(e: Surroundings, route: Route)
    requires route.provider == "openai"
    ensures GetLlmWrapper(e, route) == Makes
  {
    PlainNames();
  }

  lemma PlainNames()
    ensures Lower(Strip("openai")) == "openai" && Lower(Strip("google")) == "google"
    ensures Lower(Strip("anthropic")) == "anthropic"
  {
    Openai();
    Google();
    Anthropic();
  }

  lemma Openai()
    ensures Lower(Strip("openai")) == "openai"
  {
    PlainName("openai");
  }

  lemma Google()
    ensures Lower(Strip("google")) == "google"
  {
    PlainName("google");
  }

  lemma Anthropic()
    ensures Lower(Strip("anthropic")) == "anthropic"
  {
    PlainName("anthropic");
  }

  lemma PlainName(s: string)
    requires s != "" && !IsSpace(s[0]) && !IsSpace(s[|s| - 1]) && forall i :: 0 <= i < |s| ==> !('A' <= s[i] <= 'Z')
    ensures Lower(Strip(s)) == s
  {
    LowerOfLower(s);
  }

  lemma {:induction false} LowerOfLower(s: string)
    requires forall i :: 0 <= i < |s| ==> !('A' <= s[i] <= 'Z')
    ensures Lower(s) == s
  {
    if s != "" {
      LowerOfLower(s[1..]);
    }
  }

  // ----- Chains of fallbacks

  /** The task reached after k fallbacks; it stays where there is none. */
  function Hop(s: Setting, task: string, k: nat): string {
    if k == 0 then task
    else
      var t := Hop(s, task, k - 1);
      if PassesOn(s, t) then s.fallbacks[t] else t
  }

  lemma {:induction false} HopFromNext(s: Setting, task: string, k: nat)
    requires PassesOn(s, task) && k > 0
    ensures Hop(s, task, k) == Hop(s, s.fallbacks[task], k - 1)
  {
    if k > 1 {
      HopFromNext(s, task, k - 1);
    }
  }

  /** A request ends at the first task of the chain that does not pass on, if there is room to reach it;
      it runs out of room when none of the first depth tasks stops. */
  lemma {:induction false} ResolvesExactly(s: Setting, task: string, depth: nat)
    ensures Resolve(s, task, depth) == TooDeep <==> forall k :: 0 <= k < depth ==> PassesOn(s, Hop(s, task, k))
    ensures forall k :: 0 <= k < depth && !PassesOn(s, Hop(s, task, k)) ==>
              Resolve(s, task, depth) == End(s, Hop(s, task, k))
    decreases depth
  {
    if depth > 0 && PassesOn(s, task) {
      var next := s.fallbacks[task];
      ResolvesExactly(s, next, depth - 1);
      forall k | 0 < k < depth ensures Hop(s, task, k) == Hop(s, next, k - 1) {
        HopFromNext(s, task, k);
      }
      assert Hop(s, task, 0) == task;
      if Resolve(s, next, depth - 1) != TooDeep {
        var k :| 0 <= k < depth - 1 && !PassesOn(s, Hop(s, next, k));
        HopFromNext(s, task, k + 1);
        assert !PassesOn(s, Hop(s, task, k + 1));
      }
    } else if depth > 0 {
      assert Resolve(s, task, depth) == End(s, task);
      assert Hop(s, task, 0) == task;
      assert exists k :: 0 <= k < depth && !PassesOn(s, Hop(s, task, k));
      forall k | 0 <= k < depth ensures Hop(s, task, k) == task {
        StaysPut(s, task, k);
      }
    }
  }

  lemma {:induction false} StaysPut(s: Setting, task: string, k: nat)
    requires !PassesOn(s, task)
    ensures Hop(s, task, k) == task
  {
    if k > 0 {
      StaysPut(s, task, k - 1);
    }
  }

  lemma {:induction false} HopsAdd(s: Setting, task: string, i: nat, j: nat)
    ensures Hop(s, Hop(s, task, i), j) == Hop(s, task, i + j)
  {
    if j > 0 {
      HopsAdd(s, task, i, j - 1);
    }
  }

  lemma {:induction false} SizeOfDistinct(tasks: seq<string>, keys: set<string>)
    requires forall i :: 0 <= i < |tasks| ==> tasks[i] in keys
    requires forall i, j :: 0 <= i < j < |tasks| ==> tasks[i] != tasks[j]
    ensures |tasks| <= |keys|
  {
    if tasks != [] {
      var n := |tasks| - 1;
      SizeOfDistinct(tasks[..n], keys - {tasks[n]});
    }
  }

  /** When a task comes back the chain goes round for ever. */
  lemma {:induction false} ComesBack(s: Setting, task: string, i: nat, j: nat, k: nat)
    requires i < j && Hop(s, task, i) == Hop(s, task, j)
    requires forall l :: 0 <= l < j ==> PassesOn(s, Hop(s, task, l))
    ensures PassesOn(s, Hop(s, task, k))
    decreases k
  {
    if k >= j {
      HopsAdd(s, task, i, k - j);
      HopsAdd(s, task, j, k - j);
      ComesBack(s, task, i, j, i + (k - j));
    }
  }

  /** A request that has not ended after one call more than there are fallbacks never ends: by then the
      chain has come back to a task it had left. */
  lemma EndsEarlyOrNever(s: Setting, task: string, depth: nat)
    requires Resolve(s, task, |s.fallbacks.Keys| + 1) == TooDeep
    ensures Resolve(s, task, depth) == TooDeep
  {
    var n := |s.fallbacks.Keys| + 1;
    ResolvesExactly(s, task, n);
    var visited := seq(n, k requires 0 <= k < n => Hop(s, task, k));
    assert forall k :: 0 <= k < n ==> PassesOn(s, Hop(s, task, k)) && visited[k] in s.fallbacks.Keys;
    if forall i, j :: 0 <= i < j < n ==> visited[i] != visited[j] {
      SizeOfDistinct(visited, s.fallbacks.Keys);
    }
    var i, j :| 0 <= i < j < n && visited[i] == visited[j];
    forall k: nat | k < depth ensures PassesOn(s, Hop(s, task, k)) {
      ComesBack(s, task, i, j, k);
    }
    ResolvesExactly(s, task, depth);
  }

  // ----- The default fallbacks

  lemma TasksDiffer()
    ensures "spec" != "code" && |"analysis"| == |"refactor"| == 8 && "analysis" != "refactor" && |"review"| == 6
  {
    assert "spec"[0] == 's' && "code"[0] == 'c' && "analysis"[0] == 'a' && "refactor"[0] == 'r';
  }

  lemma DefaultFallbacks()
    ensures MODEL_ROUTING_FALLBACKS.Keys == MODEL_ROUTING.Keys
    ensures "code" in MODEL_ROUTING && "analysis" in MODEL_ROUTING
    ensures MODEL_ROUTING_FALLBACKS["code"] == "analysis" && MODEL_ROUTING_FALLBACKS["analysis"] == "code"
    ensures forall t :: t in MODEL_ROUTING ==> MODEL_ROUTING_FALLBACKS[t] in {"code", "analysis"}
  {
    TasksDiffer();
  }

  /** The default fallbacks, and a route for each of the default tasks. */
  function DefaultSetting(routing: Routing, cached: set<string>, e: Surroundings): Setting {
    Setting(Outcomes(routing, e), MODEL_ROUTING_FALLBACKS, cached)
  }

  /** Nothing can be made for the task now: it is not cached, its route names no provider, and there are
      no profiles. */
  predicate Absent(routing: Routing, cached: set<string>, e: Surroundings, task: string)
    requires task in routing
  {
    task !in cached && Blank(routing[task]) && e.candidates == [] && e.default.None?
  }

  lemma AbsentPassesOn(routing: Routing, cached: set<string>, e: Surroundings, task: string)
    requires task in routing && task in MODEL_ROUTING
    ensures PassesOn(DefaultSetting(routing, cached, e), task) <==> Absent(routing, cached, e, task)
  {
    NoneExactly(e, routing[task]);
    DefaultFallbacks();
    assert |"code"| == 4 && |"analysis"| == 8;
  }

  /** How a request ends at a task that is not absent. */
  function Ends(routing: Routing, cached: set<string>, e: Surroundings, task: string): Served
    requires task in routing
  {
    if task in cached then Cached(task) else if GetLlmWrapper(e, routing[task]) == Makes then New(task) else Raised
  }

  lemma PresentEnds(routing: Routing, cached: set<string>, e: Surroundings, task: string, depth: nat)
    requires task in routing && task in MODEL_ROUTING && depth > 0 && !Absent(routing, cached, e, task)
    ensures Resolve(DefaultSetting(routing, cached, e), task, depth) == Ends(routing, cached, e, task)
  {
    AbsentPassesOn(routing, cached, e, task);
    NoneExactly(e, routing[task]);
  }

  lemma AbsentGoesOn(routing: Routing, cached: set<string>, e: Surroundings, task: string, depth: nat)
    requires task in routing && task in MODEL_ROUTING && depth > 0 && Absent(routing, cached, e, task)
    ensures task in MODEL_ROUTING_FALLBACKS
    ensures
      var s := DefaultSetting(routing, cached, e);
      Resolve(s, task, depth) == Resolve(s, MODEL_ROUTING_FALLBACKS[task], depth - 1)
  {
    AbsentPassesOn(routing, cached, e, task);
    DefaultFallbacks();
  }

  /** The fallbacks, in words: code and review go to analysis, the others to code, and each of the two to the
      other. */
  lemma DefaultChain(task: string)
    requires task in MODEL_ROUTING
    ensures task == "spec" || task == "code" || task == "analysis" || task == "refactor" || task == "review"
    ensures MODEL_ROUTING_FALLBACKS[task] == if task == "code" || task == "review" then "analysis" else "code"
  {
    TasksDiffer();
  }

  /** With the default fallbacks, and routes for at least the default tasks, a request for a default task
      nests for ever exactly when the task, the code task and the analysis task are all absent.  Otherwise
      it ends, within three calls, at the first task of its chain that is not, with its cached wrapper, a new
      one, or the exception of the factory.  The error for a missing provider is never raised. */
  lemma DefaultTaskEndsExactly(routing: Routing, cached: set<string>, e: Surroundings, task: string, depth: nat)
    requires {"spec", "code", "analysis", "refactor", "review"} <= routing.Keys
    requires task in {"spec", "code", "analysis", "refactor", "review"} && depth >= 3
    ensures
      var second := if task == "code" || task == "review" then "analysis" else "code";
      var third := if task == "code" || task == "review" then "code" else "analysis";
      Resolve(DefaultSetting(routing, cached, e), task, depth)
      == if !Absent(routing, cached, e, task) then Ends(routing, cached, e, task)
         else if !Absent(routing, cached, e, second) then Ends(routing, cached, e, second)
         else if !Absent(routing, cached, e, third) then Ends(routing, cached, e, third)
         else TooDeep
  {
    hide Absent, Ends, Resolve, DefaultSetting;
    DefaultTasks();
    DefaultFallbacks();
    DefaultChain(task);
    var second := MODEL_ROUTING_FALLBACKS[task];
    DefaultChain(second);
    var third := MODEL_ROUTING_FALLBACKS[second];
    CodeAndAnalysis(second, third);
    if !Absent(routing, cached, e, task) {
      PresentEnds(routing, cached, e, task, depth);
    } else {
      AbsentGoesOn(routing, cached, e, task, depth);
      if !Absent(routing, cached, e, second) {
        PresentEnds(routing, cached, e, second, depth - 1);
      } else {
        AbsentGoesOn(routing, cached, e, second, depth - 1);
        if !Absent(routing, cached, e, third) {
          PresentEnds(routing, cached, e, third, depth - 2);
        } else {
          GoesRound(routing, cached, e, third, depth - 2);
        }
      }
    }
  }

  lemma DefaultTasks()
    ensures MODEL_ROUTING.Keys == {"spec", "code", "analysis", "refactor", "review"}
  {
  }

  lemma CodeAndAnalysis(second: string, third: string)
    requires second == "code" || second == "analysis"
    requires third == if second == "code" then "analysis" else "code"
    ensures "code" != "analysis" && "analysis" != "review" && "code" != "review"
    ensures {second, third} == {"code", "analysis"}
  {
    TasksDiffer();
    assert |"code"| == 4 && |"review"| == 6;
  }

  lemma {:induction false} GoesRound(routing: Routing, cached: set<string>, e: Surroundings, task: string, depth: nat)
    requires task in {"code", "analysis"} && "code" in routing && "analysis" in routing
    requires Absent(routing, cached, e, "code") && Absent(routing, cached, e, "analysis")
    ensures Resolve(DefaultSetting(routing, cached, e), task, depth) == TooDeep
    decreases depth
  {
    DefaultFallbacks();
    if depth > 0 {
      AbsentGoesOn(routing, cached, e, task, depth);
      GoesRound(routing, cached, e, MODEL_ROUTING_FALLBACKS[task], depth - 1);
    }
  }

  /** The default routes name plain providers: a default task is always served by its own route, and its
      fallback is never looked at. */
  lemma DefaultRoutesNeedNoFallback(cached: set<string>, e: Surroundings, task: string, depth: nat)
    requires task in MODEL_ROUTING && depth > 0
    ensures Resolve(DefaultSetting(MODEL_ROUTING, cached, e), task, depth)
            == if task in cached then Cached(task) else New(task)
    ensures MODEL_ROUTING[task].provider
            == if task == "code" then "openai"
               else if task == "analysis" || task == "review" then "anthropic" else "google"
  {
    hide GetLlmWrapper;
    TasksDiffer();
    MadeForPlain(e, MODEL_ROUTING[task]);
  }

  lemma MadeForPlain(e: Surroundings, route: Route)
    requires route.provider == "google" || route.provider == "openai" || route.provider == "anthropic"
    ensures GetLlmWrapper(e, route) == Makes
  {
    PlainNames();
  }

  /** A provider that is named but is none of the plain ones raises at once: its fallback is not tried. */
  lemma UnknownProviderIsNotReplaced(routing: Routing, fallbacks: Fallbacks, cached: set<string>, e: Surroundings,
                                     task: string, depth: nat)
    requires task in routing && task !in cached && depth > 0
    requires
      var provider := Lower(Strip(routing[task].provider));
      provider != "" && provider != "openai" && provider != "anthropic" && provider != "google" && provider != "qwen"
    ensures Resolve(Setting(Outcomes(routing, e), fallbacks, cached), task, depth) == Raised
  {
    NamedProviderExactly(e, routing[task]);
  }

  /** Without profiles, two blank routes are enough. */
  lemma BlankRoutesGoRound(routing: Routing, e: Surroundings, depth: nat)
    requires e.candidates == [] && e.default.None?
    requires routing == MODEL_ROUTING["code" := Route("", "")]["analysis" := Route("", "")]
    ensures Resolve(DefaultSetting(routing, {}, e), "code", depth) == TooDeep
  {
    assert |"code"| != |"analysis"|;
    assert Blank(Route("", ""));
    GoesRound(routing, {}, e, "code", depth);
  }

  /** A reachable case: the routes of code and analysis are set to no provider, and there are no profiles. */
  method BlankRoutesNest(depth: nat) returns (r: Answer)
    ensures r == RecursionError
  {
    var router := new LLMRouter(None);
    router.SetCustomRoute("code", "", "");
    assert router.cache == map[];
    router.SetCustomRoute("analysis", "", "");
    assert router.cache == map[];
    var surroundings := Surroundings([], None, {});
    BlankRoutesGoRound(router.routing, surroundings, depth);
    assert router.SettingFor(surroundings) == DefaultSetting(router.routing, {}, surroundings);
    r := router.ForTask("code", surroundings, depth);
  }
}
