/**
  Cache keys: `key` and `cacheable` (engine/simplicio_cache.py), and the whole path of a request
  through the proxy to a cached response.
 */
module CacheKey {
  import opened Wrappers
  import opened Eviction
  import opened Cache

  /** A JSON value; a float is given by its shortest text. */
  datatype Value =
    | Null
    | Bool(b: bool)
    | Int(i: int)
    | Float(text: string)
    | Str(s: string)
    | List(items: seq<Value>)
    | Dict(fields: map<string, Value>)

  type Body = map<string, Value>

  /** What comes with a body: the method and the path, the provider it is for, and the headers, among them
      the authorization. */
  datatype Envelope = Envelope(verb: string, path: string, provider: string, headers: map<string, string>)

  /** `identity` is the address of the body object. */
  datatype Request = Request(model: Value, body: Body, identity: int, envelope: Envelope)

  const PARAM_KEYS: seq<string> := ["temperature", "top_p", "max_tokens", "tools", "response_format"]

  /** The parts of Python the key is computed with: numbers, JSON text and SHA-256. */
  datatype Python = Python(
    parseInt: string -> Option<int>,
    parseFloat: string -> Option<string>,
    truncate: string -> Option<int>,
    isZero: string -> bool,
    dumps: Body -> Option<string>,
    hexdigest: string -> string,
    reprOf: (Value, int) -> string)

  predicate IsHexDigest(s: string) {
    s != "" && forall i | 0 <= i < |s| :: '0' <= s[i] <= '9' || 'a' <= s[i] <= 'f'
  }

  /** Text and hash tell different inputs apart. */
  ghost predicate Injective(py: Python) {
    && (forall a, b :: py.dumps(a).Some? && py.dumps(a) == py.dumps(b) ==> a == b)
    && (forall a, b :: py.hexdigest(a) == py.hexdigest(b) ==> a == b)
    && (forall a, b, m, n :: py.reprOf(a, m) == py.reprOf(b, n) ==> a == b && m == n)
    && forall a :: IsHexDigest(py.hexdigest(a))
  }

  function Field(body: Body, name: string): Value {
    if name in body then body[name] else Null
  }

  function ToInt(py: Python, v: Value): Option<int> {
    match v
    case Bool(b) => Some(if b then 1 else 0)
    case Int(i) => Some(i)
    case Float(text) => py.truncate(text)
    case Str(s) => py.parseInt(s)
    case _ => None
  }

  // ---- the canonical view -----------------------------------------------------------------

  function WithField(m: Body, name: string, v: Value): Body {
    if v == Null then m else m[name := v]
  }

  function WithFields(m: Body, body: Body, names: seq<string>): Body
    decreases |names|
  {
    if names == [] then m
    else WithFields(WithField(m, names[0], Field(body, names[0])), body, names[1..])
  }

  function ModelOf(q: Request): Value {
    if q.model != Null then q.model else Field(q.body, "model")
  }

  /** `n`, where absent and 1 are the same; an error when it is no number. */
  function Count(py: Python, body: Body): Option<Value> {
    var n := Field(body, "n");
    if n == Null then Some(Null)
    else
      var i := ToInt(py, n);
      if i.None? then None else if i.value == 1 then Some(Null) else Some(n)
  }

  /** The fields that are always treated. */
  function Base(py: Python, q: Request): Body
    requires Count(py, q.body).Some?
  {
    WithField(WithField(map["model" := ModelOf(q), "messages" := Field(q.body, "messages")],
                        "system", Field(q.body, "system")), "n", Count(py, q.body).value)
  }

  function Canonical(py: Python, q: Request): Option<Body> {
    if Count(py, q.body).None? then None else Some(WithFields(Base(py, q), q.body, PARAM_KEYS))
  }

  function Blob(py: Python, q: Request): Option<string> {
    var m := Canonical(py, q);
    if m.None? then None else py.dumps(m.value)
  }

  const UNCACHEABLE := "uncacheable-"

  /** `ResponseCache.key` */
  method KeyOf(py: Python, q: Request) returns (key: string)
    ensures key == Key(py, q)
  {
    var m := map["model" := if q.model != Null then q.model else Field(q.body, "model"),
                 "messages" := Field(q.body, "messages")];
    if Field(q.body, "system") != Null {
      m := m["system" := Field(q.body, "system")];
    }
    var n := Field(q.body, "n");
    if n != Null {
      var i := ToInt(py, n);
      if i.None? {
        return UNCACHEABLE + py.hexdigest(py.reprOf(q.model, q.identity));
      }
      if i.value != 1 {
        m := m["n" := n];
      }
    }
    ghost var start := m;
    var j := 0;
    while j < |PARAM_KEYS|
      invariant 0 <= j <= |PARAM_KEYS|
      invariant WithFields(m, q.body, PARAM_KEYS[j..]) == WithFields(start, q.body, PARAM_KEYS)
    {
      var name := PARAM_KEYS[j];
      assert PARAM_KEYS[j..][1..] == PARAM_KEYS[j + 1..];
      if name in q.body && q.body[name] != Null {
        m := m[name := q.body[name]];
      }
      j := j + 1;
    }
    var blob := py.dumps(m);
    if blob.None? {
      return UNCACHEABLE + py.hexdigest(py.reprOf(q.model, q.identity));
    }
    return py.hexdigest(blob.value);
  }

  function Key(py: Python, q: Request): string {
    var blob := Blob(py, q);
    if blob.None? then UNCACHEABLE + py.hexdigest(py.reprOf(q.model, q.identity)) else py.hexdigest(blob.value)
  }

  // ---- what a key separates ---------------------------------------------------------------

  /** The two requests agree on everything the key is about. */
  predicate Agree(py: Python, p: Request, q: Request) {
    && ModelOf(p) == ModelOf(q)
    && Field(p.body, "messages") == Field(q.body, "messages")
    && Field(p.body, "system") == Field(q.body, "system")
    && Count(py, p.body) == Count(py, q.body)
    && forall k | k in PARAM_KEYS :: Field(p.body, k) == Field(q.body, k)
  }

  lemma {:induction false} FieldOfWithFields(m: Body, body: Body, names: seq<string>, k: string)
    requires Distinct(names) && forall i | 0 <= i < |names| :: names[i] !in m
    ensures Field(WithFields(m, body, names), k) == if k in names then Field(body, k) else Field(m, k)
    decreases |names|
  {
    if names != [] {
      FieldOfWithFields(WithField(m, names[0], Field(body, names[0])), body, names[1..], k);
      assert names == [names[0]] + names[1..];
    }
  }

  lemma {:induction false} WithFieldsAgree(m: Body, a: Body, b: Body, names: seq<string>)
    requires forall k | k in names :: Field(a, k) == Field(b, k)
    ensures WithFields(m, a, names) == WithFields(m, b, names)
    decreases |names|
  {
    if names != [] {
      assert names[0] in names;
      WithFieldsAgree(WithField(m, names[0], Field(a, names[0])), a, b, names[1..]);
    }
  }

  lemma ParamKeysAreDistinct()
    ensures Distinct(PARAM_KEYS)
    ensures forall i | 0 <= i < |PARAM_KEYS| :: PARAM_KEYS[i] !in ["model", "messages", "system", "n"]
  {
    assert |PARAM_KEYS[0]| == 11 && |PARAM_KEYS[1]| == 5 && |PARAM_KEYS[2]| == 10 && |PARAM_KEYS[3]| == 5
        && |PARAM_KEYS[4]| == 15;
    assert PARAM_KEYS[1][3] != PARAM_KEYS[3][3];
  }

  lemma BaseFields(py: Python, q: Request)
    requires Count(py, q.body).Some?
    ensures var m := Base(py, q);
            && Field(m, "model") == ModelOf(q) && Field(m, "messages") == Field(q.body, "messages")
            && Field(m, "system") == Field(q.body, "system") && Field(m, "n") == Count(py, q.body).value
    ensures forall k | k in Base(py, q) :: k in ["model", "messages", "system", "n"]
  {
    DistinctNames();
  }

  lemma DistinctNames()
    ensures "model" != "messages" && "model" != "system" && "model" != "n"
    ensures "messages" != "system" && "messages" != "n" && "system" != "n"
  {
    assert |"model"| == 5 && |"messages"| == 8 && |"system"| == 6 && |"n"| == 1;
  }

  /** What was put in can be read off. */
  lemma WithFieldsTellsApart(m: Body, n: Body, a: Body, b: Body, names: seq<string>)
    requires Distinct(names) && forall i | 0 <= i < |names| :: names[i] !in m && names[i] !in n
    requires WithFields(m, a, names) == WithFields(n, b, names)
    ensures forall k | k in names :: Field(a, k) == Field(b, k)
    ensures forall k | k !in names :: Field(m, k) == Field(n, k)
  {
    forall k: string ensures k in names ==> Field(a, k) == Field(b, k)
                     ensures k !in names ==> Field(m, k) == Field(n, k) {
      FieldOfWithFields(m, a, names, k);
      FieldOfWithFields(n, b, names, k);
    }
  }

  lemma BaseIsDisjoint(py: Python, q: Request)
    requires Count(py, q.body).Some?
    ensures forall i | 0 <= i < |PARAM_KEYS| :: PARAM_KEYS[i] !in Base(py, q)
  {
    BaseFields(py, q);
    ParamKeysAreDistinct();
  }

  lemma SameBase(py: Python, p: Request, q: Request)
    requires Count(py, p.body).Some? && Count(py, q.body).Some?
    requires forall k | k !in PARAM_KEYS :: Field(Base(py, p), k) == Field(Base(py, q), k)
    ensures ModelOf(p) == ModelOf(q) && Field(p.body, "messages") == Field(q.body, "messages")
    ensures Field(p.body, "system") == Field(q.body, "system") && Count(py, p.body) == Count(py, q.body)
  {
    ParamKeysAreDistinct();
    BaseFields(py, p);
    BaseFields(py, q);
    assert "model" !in PARAM_KEYS && "messages" !in PARAM_KEYS && "system" !in PARAM_KEYS && "n" !in PARAM_KEYS;
  }

  lemma AgreeingAreSame(py: Python, p: Request, q: Request)
    requires Agree(py, p, q)
    ensures Canonical(py, p) == Canonical(py, q)
  {
    if Count(py, p.body).Some? {
      WithFieldsAgree(Base(py, p), p.body, q.body, PARAM_KEYS);
    }
  }

  lemma SameAgree(py: Python, p: Request, q: Request)
    requires Canonical(py, p).Some? && Canonical(py, p) == Canonical(py, q)
    ensures Agree(py, p, q)
  {
    ParamKeysAreDistinct();
    BaseIsDisjoint(py, p);
    BaseIsDisjoint(py, q);
    WithFieldsTellsApart(Base(py, p), Base(py, q), p.body, q.body, PARAM_KEYS);
    SameBase(py, p, q);
  }

  lemma SameCanonical(py: Python, p: Request, q: Request)
    requires Canonical(py, p).Some? && Canonical(py, q).Some?
    ensures Canonical(py, p) == Canonical(py, q) <==> Agree(py, p, q)
  {
    if Agree(py, p, q) {
      AgreeingAreSame(py, p, q);
    } else if Canonical(py, p) == Canonical(py, q) {
      SameAgree(py, p, q);
    }
  }

  lemma TokenIsNoDigest(token: string, digest: string)
    requires IsHexDigest(digest)
    ensures UNCACHEABLE + token != digest
  {
    assert (UNCACHEABLE + token)[0] == 'u';
  }

  /** Main result: requests that can be put in canonical form share a key exactly if they agree on
      model, messages, system, n and the listed parameters. A request that cannot shares its key with
      no such request, and with another failing one exactly if model and address of the body agree. */
  lemma KeysSeparate(py: Python, p: Request, q: Request)
    requires Injective(py)
    ensures Key(py, p) == Key(py, q)
       <==> if Blob(py, p).Some? && Blob(py, q).Some? then Agree(py, p, q)
            else Blob(py, p).None? && Blob(py, q).None? && p.model == q.model && p.identity == q.identity
  {
    var a, b := Blob(py, p), Blob(py, q);
    if a.Some? && b.Some? {
      SameCanonical(py, p, q);
    } else if a.Some? {
      TokenIsNoDigest(py.hexdigest(py.reprOf(q.model, q.identity)), py.hexdigest(a.value));
    } else if b.Some? {
      TokenIsNoDigest(py.hexdigest(py.reprOf(p.model, p.identity)), py.hexdigest(b.value));
    } else {
      var x, y := py.hexdigest(py.reprOf(p.model, p.identity)), py.hexdigest(py.reprOf(q.model, q.identity));
      assert (UNCACHEABLE + x)[|UNCACHEABLE|..] == x && (UNCACHEABLE + y)[|UNCACHEABLE|..] == y;
    }
  }

  /** `n` reads as one, or is not given. */
  predicate IsOne(py: Python, n: Value) {
    || n == Null || n == Bool(true) || n == Int(1)
    || (n.Float? && py.truncate(n.text) == Some(1)) || (n.Str? && py.parseInt(n.s) == Some(1))
  }

  /** `n` is given and is no number. */
  predicate IsNoNumber(py: Python, n: Value) {
    || n.List? || n.Dict?
    || (n.Float? && py.truncate(n.text).None?) || (n.Str? && py.parseInt(n.s).None?)
  }

  predicate SameAt(a: Body, b: Body, name: string) {
    (if name in a then a[name] else Null) == (if name in b then b[name] else Null)
  }

  lemma CountsAre(py: Python, a: Body, b: Body)
    ensures var m, n := if "n" in a then a["n"] else Null, if "n" in b then b["n"] else Null;
            && (Count(py, a).None? <==> IsNoNumber(py, m))
            && (Count(py, a).Some? && Count(py, b).Some? ==>
                  (Count(py, a) == Count(py, b) <==> m == n || (IsOne(py, m) && IsOne(py, n))))
  {
  }

  lemma ParamKeysAre(a: Body, b: Body)
    ensures (forall k | k in PARAM_KEYS :: Field(a, k) == Field(b, k))
       <==> SameAt(a, b, "temperature") && SameAt(a, b, "top_p") && SameAt(a, b, "max_tokens")
            && SameAt(a, b, "tools") && SameAt(a, b, "response_format")
  {
    assert PARAM_KEYS == ["temperature", "top_p", "max_tokens", "tools", "response_format"];
    forall k ensures SameAt(a, b, k) <==> Field(a, k) == Field(b, k) {
    }
  }

  /** Main result: which fields decide a key. The model of a request is the one given, or that of the body; a
      field that is null counts as absent, and so does an `n` of one. */
  lemma KeyFieldsAre(py: Python, p: Request, q: Request)
    requires Injective(py) && Blob(py, p).Some? && Blob(py, q).Some?
    ensures Key(py, p) == Key(py, q) <==>
              && (if p.model != Null then p.model else if "model" in p.body then p.body["model"] else Null)
                 == (if q.model != Null then q.model else if "model" in q.body then q.body["model"] else Null)
              && SameAt(p.body, q.body, "messages") && SameAt(p.body, q.body, "system")
              && SameAt(p.body, q.body, "temperature") && SameAt(p.body, q.body, "top_p")
              && SameAt(p.body, q.body, "max_tokens") && SameAt(p.body, q.body, "tools")
              && SameAt(p.body, q.body, "response_format")
              && var m, n := if "n" in p.body then p.body["n"] else Null, if "n" in q.body then q.body["n"] else Null;
                 m == n || (IsOne(py, m) && IsOne(py, n))
  {
    KeysSeparate(py, p, q);
    CountsAre(py, p.body, q.body);
    ParamKeysAre(p.body, q.body);
  }

  /** A request whose `n` is no number has a key of another form. */
  lemma KeyWithoutCount(py: Python, q: Request)
    requires "n" in q.body && IsNoNumber(py, q.body["n"])
    ensures Key(py, q) == "uncacheable-" + py.hexdigest(py.reprOf(q.model, q.identity))
  {
    CountsAre(py, q.body, q.body);
  }

  lemma AgreeingKeys(py: Python, p: Request, q: Request)
    requires Agree(py, p, q) && p.model == q.model && p.identity == q.identity
    ensures Key(py, p) == Key(py, q)
  {
    AgreeingAreSame(py, p, q);
  }

  /** Every other field is ignored, also one that changes the answer, such as a seed or a stop sequence. */
  lemma OtherFieldsAreIgnored(py: Python, q: Request, name: string, v: Value)
    requires name !in PARAM_KEYS && name !in ["model", "messages", "system", "n"]
    ensures Key(py, q) == Key(py, q.(body := q.body[name := v]))
  {
    var p := q.(body := q.body[name := v]);
    forall k | k in PARAM_KEYS + ["model", "messages", "system", "n"] ensures Field(p.body, k) == Field(q.body, k) {
      assert k != name;
    }
    AgreeingKeys(py, q, p);
  }

  // ---- the proxy --------------------------------------------------------------------------

  predicate Truthy(py: Python, v: Value) {
    match v
    case Null => false
    case Bool(b) => b
    case Int(i) => i != 0
    case Float(text) => !py.isZero(text)
    case Str(s) => s != ""
    case List(items) => items != []
    case Dict(fields) => fields != map[]
  }

  /** Only deterministic requests that do not stream. */
  predicate Cacheable(py: Python, body: Body) {
    var t := Field(body, "temperature");
    && !Truthy(py, Field(body, "stream"))
    && (!Truthy(py, t) || (t.Str? && py.parseFloat(t.s).Some? && py.isZero(py.parseFloat(t.s).value)))
  }

  /** A request, what upstream would answer (nothing if it fails), and what the disk does; or a wipe
      of the cache. */
  datatype Event =
    | Ask(q: Request, upstream: Option<Response>, size: nat, time: int, readable: bool, touched: bool,
          stats: StatsIo, stored: bool, order: Order, fails: set<string>)
    | Wipe(kept: set<string>, statsKept: bool)

  /** What the proxy serves from the cache. */
  function Served(py: Python, files: Files, e: Event): Option<Response>
    requires e.Ask?
  {
    if Cacheable(py, e.q.body) then Answer(files, Key(py, e.q), e.readable) else None
  }

  /** The cache operations of one event: a lookup, and after a miss a put of the answer. */
  function OpsOf(py: Python, files: Files, e: Event): seq<Op> {
    match e
    case Wipe(kept, statsKept) => [Clear(kept, statsKept)]
    case Ask(q, upstream, size, time, readable, touched, stats, stored, order, fails) =>
      if !Cacheable(py, q.body) then []
      else
        [Get(Key(py, q), time, readable, touched, stats)]
        + if Served(py, files, e).Some? || upstream.None? then []
          else [Put(Key(py, q), upstream.value, size, time, stored, order, fails)]
  }

  function OpsOfAll(py: Python, events: seq<Event>, limits: Limits): seq<Op> {
    if events == [] then []
    else
      var before := OpsOfAll(py, events[..|events| - 1], limits);
      before + OpsOf(py, Run(before, limits).files, events[|events| - 1])
  }

  lemma LastPutOfAppend(ops: seq<Op>, op: Op, key: string)
    ensures LastPut(ops + [op], key)
         == if Stores(op) && op.key == key then Some(op.response)
            else if op.Clear? && key !in op.kept then None else LastPut(ops, key)
  {
    assert (ops + [op])[..|ops|] == ops;
  }

  predicate Brought(py: Python, e: Event, key: string, r: Response) {
    && e.Ask? && Cacheable(py, e.q.body) && e.upstream == Some(r) && r.status < 400 && Key(py, e.q) == key
  }

  lemma LastPutOfEvent(py: Python, ops: seq<Op>, files: Files, e: Event, key: string)
    ensures var now, before := LastPut(ops + OpsOf(py, files, e), key), LastPut(ops, key);
            now == before || now == None || Brought(py, e, key, now.value)
  {
    var more := OpsOf(py, files, e);
    if more == [] {
      assert ops + more == ops;
    } else {
      assert ops + more[..1] == ops + [more[0]];
      LastPutOfAppend(ops, more[0], key);
      if |more| > 1 {
        assert ops + more == ops + [more[0]] + [more[1]];
        LastPutOfAppend(ops + [more[0]], more[1], key);
      } else {
        assert ops + more == ops + [more[0]];
      }
    }
  }

  lemma {:induction false} WhoBrought(py: Python, events: seq<Event>, limits: Limits, key: string, r: Response)
      returns (i: nat)
    requires LastPut(OpsOfAll(py, events, limits), key) == Some(r)
    ensures i < |events| && Brought(py, events[i], key, r)
  {
    var last := |events| - 1;
    var before := OpsOfAll(py, events[..last], limits);
    LastPutOfEvent(py, before, Run(before, limits).files, events[last], key);
    if Brought(py, events[last], key, r) {
      i := last;
    } else {
      i := WhoBrought(py, events[..last], limits, key, r);
    }
  }

  /** What is served to `e` after a run of the proxy. */
  function ServedAfter(py: Python, events: seq<Event>, limits: Limits, e: Event): Option<Response>
    requires e.Ask?
  {
    Served(py, Run(OpsOfAll(py, events, limits), limits).files, e)
  }

  /** `e` may be served what upstream gave, without error, to `source`: that was a cacheable request that
      agrees with it on everything the key is about; if `e` has no canonical form, one with the same
      model and the same body address. */
  predicate MayServe(py: Python, source: Event, e: Event, r: Response)
    requires e.Ask?
  {
    && source.Ask? && Cacheable(py, source.q.body) && source.upstream == Some(r) && r.status < 400
    && if Blob(py, e.q).Some? then Blob(py, source.q).Some? && Agree(py, source.q, e.q)
       else source.q.model == e.q.model && source.q.identity == e.q.identity
  }

  /** Main result: over any run of the proxy, a response served from the cache comes from an earlier
      event that may serve it. */
  lemma NoHitCrossesRequests(py: Python, events: seq<Event>, limits: Limits, e: Event)
    requires Injective(py) && e.Ask?
    ensures var served := ServedAfter(py, events, limits, e);
            served.Some? ==> exists i :: 0 <= i < |events| && MayServe(py, events[i], e, served.value)
  {
    var ops, key := OpsOfAll(py, events, limits), Key(py, e.q);
    var served := ServedAfter(py, events, limits, e);
    if served.Some? {
      HitIsTheLastPut(ops, limits, key, e.readable);
      var i := WhoBrought(py, events, limits, key, served.value);
      KeysSeparate(py, events[i].q, e.q);
      assert MayServe(py, events[i], e, served.value);
    }
  }

  // ---- which requests are served ----------------------------------------------------------

  /** Null, false, zero or empty: what Python takes for false. */
  predicate IsUnset(py: Python, v: Value) {
    || v == Null || v == Bool(false) || v == Int(0) || (v.Float? && py.isZero(v.text))
    || v == Str("") || v == List([]) || v == Dict(map[])
  }

  /** A string that reads as zero. */
  predicate IsZeroText(py: Python, v: Value) {
    v.Str? && py.parseFloat(v.s).Some? && py.isZero(py.parseFloat(v.s).value)
  }

  /** No streaming, and a temperature that is absent, unset or reads as zero. */
  predicate IsDeterministic(py: Python, body: Body) {
    && ("stream" in body ==> IsUnset(py, body["stream"]))
    && ("temperature" in body ==> IsUnset(py, body["temperature"]) || IsZeroText(py, body["temperature"]))
  }

  lemma CacheableIff(py: Python, body: Body)
    ensures Cacheable(py, body) <==> IsDeterministic(py, body)
  {
  }

  /** Main result: over any run of the proxy, a request is served from the cache exactly if it is deterministic
      and an entry that can be read is there for its key. It then gets what upstream gave, without error, to an
      earlier deterministic request. */
  lemma ServedIff(py: Python, events: seq<Event>, limits: Limits, e: Event)
    requires Injective(py) && e.Ask?
    ensures var served := ServedAfter(py, events, limits, e);
            && (served.Some? <==> IsDeterministic(py, e.q.body) && e.readable
                                  && Key(py, e.q) in Run(OpsOfAll(py, events, limits), limits).files)
            && (served.Some? ==> exists i :: 0 <= i < |events| && MayServe(py, events[i], e, served.value)
                                             && IsDeterministic(py, events[i].q.body))
  {
    var served := ServedAfter(py, events, limits, e);
    CacheableIff(py, e.q.body);
    HitIsTheLastPut(OpsOfAll(py, events, limits), limits, Key(py, e.q), e.readable);
    if served.Some? {
      NoHitCrossesRequests(py, events, limits, e);
      var i :| 0 <= i < |events| && MayServe(py, events[i], e, served.value);
      CacheableIff(py, events[i].q.body);
    }
  }

  /** The put that follows a miss. */
  function PutOf(py: Python, e: Event): Op
    requires e.Ask? && e.upstream.Some?
  {
    Put(Key(py, e.q), e.upstream.value, e.size, e.time, e.stored, e.order, e.fails)
  }

  /** Main result: asked again, a deterministic request gets the answer it got from the cache; after a miss
      the one upstream gave, if that was no error, reached the disk and was not evicted on the spot; and if
      nothing was stored what it would have got before. */
  lemma AskedAgain(py: Python, events: seq<Event>, limits: Limits, e: Event, again: Event)
    requires e.Ask? && again.Ask? && again.q == e.q && again.readable && IsDeterministic(py, e.q.body)
    ensures var files := Run(OpsOfAll(py, events, limits), limits).files;
            ServedAfter(py, events + [e], limits, again)
            == if ServedAfter(py, events, limits, e).Some? then ServedAfter(py, events, limits, e)
            else if e.upstream.None? || e.upstream.value.status >= 400 || !e.stored then
              ServedAfter(py, events, limits, again)
            else if Key(py, e.q) !in e.order || Key(py, e.q) in e.fails
                    || AllFit(StandingAtPut(files, PutOf(py, e)), limits) then e.upstream
            else None
  {
    var files := Run(OpsOfAll(py, events, limits), limits).files;
    FilesAfterAsk(py, events, limits, e);
    CacheableIff(py, e.q.body);
    if Served(py, files, e).None? && e.upstream.Some? && Stores(PutOf(py, e)) {
      PutThenGetIff(files, PutOf(py, e), limits);
    }
  }

  lemma FilesAfterAsk(py: Python, events: seq<Event>, limits: Limits, e: Event)
    requires e.Ask? && Cacheable(py, e.q.body)
    ensures var files := Run(OpsOfAll(py, events, limits), limits).files;
            var get := Get(Key(py, e.q), e.time, e.readable, e.touched, e.stats);
            Run(OpsOfAll(py, events + [e], limits), limits).files
            == if Served(py, files, e).Some? then Touched(files, get)
            else if e.upstream.None? then files else FilesAfter(files, PutOf(py, e), limits)
  {
    var ops := OpsOfAll(py, events, limits);
    var files := Run(ops, limits).files;
    var get := Get(Key(py, e.q), e.time, e.readable, e.touched, e.stats);
    assert (events + [e])[..|events|] == events;
    RunOfSnoc(ops, get, limits);
    if Served(py, files, e).Some? || e.upstream.None? {
      assert OpsOfAll(py, events + [e], limits) == ops + [get];
    } else {
      assert OpsOfAll(py, events + [e], limits) == ops + [get] + [PutOf(py, e)];
      RunOfSnoc(ops + [get], PutOf(py, e), limits);
    }
  }

  lemma RunOfSnoc(ops: seq<Op>, op: Op, limits: Limits)
    ensures Run(ops + [op], limits).files == FilesAfter(Run(ops, limits).files, op, limits)
  {
    assert (ops + [op])[..|ops|] == ops;
  }

  // ---- what the cache does not look at ----------------------------------------------------

  /** The same event, sent in another envelope. */
  predicate SameButEnvelope(a: Event, b: Event) {
    if a.Wipe? then b == a else b.Ask? && b == a.(q := a.q.(envelope := b.q.envelope))
  }

  lemma EnvelopeOfKey(py: Python, q: Request, envelope: Envelope)
    ensures Key(py, q) == Key(py, q.(envelope := envelope))
  {
    AgreeingKeys(py, q, q.(envelope := envelope));
  }

  lemma EnvelopeOfEvent(py: Python, files: Files, a: Event, b: Event)
    requires SameButEnvelope(a, b)
    ensures OpsOf(py, files, a) == OpsOf(py, files, b)
    ensures a.Ask? ==> Served(py, files, a) == Served(py, files, b)
  {
    if a.Ask? {
      EnvelopeOfKey(py, a.q, b.q.envelope);
    }
  }

  lemma {:induction false} EnvelopesOfRun(py: Python, events: seq<Event>, others: seq<Event>, limits: Limits)
    requires |events| == |others| && forall i | 0 <= i < |events| :: SameButEnvelope(events[i], others[i])
    ensures OpsOfAll(py, events, limits) == OpsOfAll(py, others, limits)
  {
    if events != [] {
      var last := |events| - 1;
      EnvelopesOfRun(py, events[..last], others[..last], limits);
      var before := OpsOfAll(py, events[..last], limits);
      EnvelopeOfEvent(py, Run(before, limits).files, events[last], others[last]);
    }
  }

  /** Main result: what is served depends on no envelope, neither that of the request nor those of the run
      before it. */
  lemma EnvelopesAreIgnored(py: Python, events: seq<Event>, others: seq<Event>, limits: Limits, e: Event, e': Event)
    requires |events| == |others| && forall i | 0 <= i < |events| :: SameButEnvelope(events[i], others[i])
    requires e.Ask? && SameButEnvelope(e, e')
    ensures ServedAfter(py, events, limits, e) == ServedAfter(py, others, limits, e')
  {
    EnvelopesOfRun(py, events, others, limits);
    EnvelopeOfEvent(py, Run(OpsOfAll(py, others, limits), limits).files, e, e');
  }
}
