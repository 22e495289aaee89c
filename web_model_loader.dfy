/**
 * The load pipeline of `WebModelLoader`: a message from the page names a model
 * id, the backend is asked for the model's metadata, the GLB file named there
 * is downloaded, the hosting node's children are destroyed, and the bytes are
 * handed to the glTF importer; on success one new child `ModeloGLB` holds the
 * model. Every collaborator (JSON parser, HTTP client, URI constructor, glTF
 * importer) is an uninterpreted function in `Env`, each answering with an
 * abstract outcome.
 */
module Loader {
  import opened Wrappers
  import opened StringOps
  import opened MessageCleanup
  import opened Decimal

  type Int32 = x: int | -0x8000_0000 <= x < 0x8000_0000
  type Byte = b: int | 0 <= b < 256

  /** `MessageData`: what the page asks for. */
  datatype MessageData = MessageData(messageType: string, id: Int32)

  /** `ModelInfo`: the backend's answer; `url` is `None` where the JSON leaves it null. */
  datatype ModelInfo = ModelInfo(id: Int32, titulo: string, tipo: string, url: Option<string>)

  /** What `JsonUtility.FromJson` does: an object, null, or an exception. */
  datatype Parse<T> = Parsed(value: T) | ParsedNull | ParseThrew

  /** A `UnityWebRequest` GET: `Result.Success` with the body, or anything else. */
  datatype Fetch<T> = Fetched(body: T) | FetchFailed

  /** How the importer's `Task<bool>` ends. */
  datatype ImportTask = Faulted | Canceled | Completed(ok: bool)

  /**
   * The collaborators, each reduced to the outcome it reports; `uriParses(u)`
   * holds when `new System.Uri(u)` does not throw.
   */
  datatype Env = Env(
    parseMessage: string -> Parse<MessageData>,
    getText: string -> Fetch<string>,
    parseModelInfo: string -> Parse<ModelInfo>,
    getBytes: string -> Fetch<seq<Byte>>,
    uriParses: string -> bool,
    loadGltfBinary: (seq<Byte>, string) -> ImportTask)

  const LOAD_MODEL: string := "LOAD_MODEL"
  const MODEL_ROOT_NAME: string := "ModeloGLB"
  const METADATA_PREFIX: string := "http://127.0.0.1:8000/planos/3d/"
  const METADATA_SUFFIX: string := "/modelo"

  /** A request the pipeline makes of the outside world. */
  datatype Request = GetMetadata(url: string) | GetGlb(url: string) | ImportGlb(url: string)

  /** Why a run stops early; each of these is only logged by the source. */
  datatype Abort =
    | CleanupThrew | MessageParseThrew | MessageNull
    | MetadataTransport | MetadataParseThrew | MetadataInvalid
    | GlbTransport | UriThrew | ImportFaulted | ImportCanceled | ImportRejected

  datatype Outcome = Ignored | Aborted(reason: Abort) | Loaded

  /**
   * What one run does: the requests in order, whether the hosting node's
   * children were destroyed, and how it ended.
   */
  datatype Run = Run(requests: seq<Request>, childrenCleared: bool, outcome: Outcome)

  /** `$"http://127.0.0.1:8000/planos/3d/{id}/modelo"`. */
  function MetadataUrl(id: string): (r: string)
    ensures |r| == |METADATA_PREFIX| + |id| + |METADATA_SUFFIX|
    ensures r[..|METADATA_PREFIX|] == METADATA_PREFIX
    ensures r[|r| - |METADATA_SUFFIX|..] == METADATA_SUFFIX
    ensures r[|METADATA_PREFIX|..|r| - |METADATA_SUFFIX|] == id
  {
    METADATA_PREFIX + id + METADATA_SUFFIX
  }

  /** The metadata URL built for a message's id names that id and no other. */
  lemma MetadataUrlDeterminesId(a: int, b: int)
    requires MetadataUrl(IntToString(a)) == MetadataUrl(IntToString(b))
    ensures a == b
  {
    var ua, ub := MetadataUrl(IntToString(a)), MetadataUrl(IntToString(b));
    assert IntToString(a) == ua[|METADATA_PREFIX|..|ua| - |METADATA_SUFFIX|];
    assert IntToString(b) == ub[|METADATA_PREFIX|..|ub| - |METADATA_SUFFIX|];
    IntToStringInjective(a, b);
  }

  /**
   * The backend, asked about `id`, answered with a model whose url is `u`, and
   * `string.IsNullOrEmpty(u)` is false.
   */
  predicate Serves(env: Env, id: string, u: string): (b: bool)
    ensures b ==> u != "" && env.getText(MetadataUrl(id)).Fetched?
    ensures b ==> env.parseModelInfo(env.getText(MetadataUrl(id)).body).Parsed?
  {
    var response := env.getText(MetadataUrl(id));
    response.Fetched?
    && var info := env.parseModelInfo(response.body);
    info.Parsed? && info.value.url == Some(u) && u != ""
  }

  /** The backend serves at most one url for an id. */
  lemma ServedUrlUnique(env: Env, id: string, u: string, v: string)
    requires Serves(env, id, u) && Serves(env, id, v)
    ensures u == v
  {
  }

  /**
   * `LoadGLB(url)`: download, then destroy the children, then import.
   * The children are destroyed exactly when the download succeeded, and the
   * model is loaded exactly when, in addition, the URI parses and the import
   * task completed with `true`. Each way of failing has its own reason.
   */
  function LoadGlbRun(env: Env, url: string): (r: Run)
    ensures |r.requests| >= 1 && r.requests[0] == GetGlb(url)
    ensures forall q :: q in r.requests ==> q == GetGlb(url) || q == ImportGlb(url)
    ensures r.requests == if env.getBytes(url).Fetched? && env.uriParses(url) then [GetGlb(url), ImportGlb(url)] else [GetGlb(url)]
    ensures r.childrenCleared <==> env.getBytes(url).Fetched?
    ensures ImportGlb(url) in r.requests <==> env.getBytes(url).Fetched? && env.uriParses(url)
    ensures r.outcome == Loaded <==>
      env.getBytes(url).Fetched? && env.uriParses(url)
      && env.loadGltfBinary(env.getBytes(url).body, url) == Completed(true)
    ensures r.outcome != Loaded ==> r.outcome.Aborted?
    ensures r.outcome == Aborted(GlbTransport) <==> env.getBytes(url).FetchFailed?
    ensures r.outcome == Aborted(UriThrew) <==> env.getBytes(url).Fetched? && !env.uriParses(url)
    ensures r.outcome == Aborted(ImportFaulted) <==>
      env.getBytes(url).Fetched? && env.uriParses(url) && env.loadGltfBinary(env.getBytes(url).body, url) == Faulted
    ensures r.outcome == Aborted(ImportCanceled) <==>
      env.getBytes(url).Fetched? && env.uriParses(url) && env.loadGltfBinary(env.getBytes(url).body, url) == Canceled
    ensures r.outcome == Aborted(ImportRejected) <==>
      env.getBytes(url).Fetched? && env.uriParses(url) && env.loadGltfBinary(env.getBytes(url).body, url) == Completed(false)
  {
    match env.getBytes(url)
    case FetchFailed => Run([GetGlb(url)], false, Aborted(GlbTransport))
    case Fetched(glbBytes) =>
      if !env.uriParses(url) then Run([GetGlb(url)], true, Aborted(UriThrew))
      else
        var requests := [GetGlb(url), ImportGlb(url)];
        match env.loadGltfBinary(glbBytes, url)
        case Faulted => Run(requests, true, Aborted(ImportFaulted))
        case Canceled => Run(requests, true, Aborted(ImportCanceled))
        case Completed(ok) => Run(requests, true, if ok then Loaded else Aborted(ImportRejected))
  }

  /**
   * `RequestModelInfo(id)`: one metadata request to the fixed URL template;
   * a GLB download is made exactly when the backend serves a non-empty url,
   * and it is of exactly that url; from there on the run is `LoadGlbRun` of
   * that url. When nothing is served, the run stops after the metadata request
   * with an abort and nothing destroyed.
   */
  function RequestModelInfoRun(env: Env, id: string): (r: Run)
    ensures |r.requests| >= 1 && r.requests[0] == GetMetadata(MetadataUrl(id))
    ensures forall u :: GetGlb(u) in r.requests ==> Serves(env, id, u)
    ensures forall u :: Serves(env, id, u) ==> |r.requests| >= 2 && r.requests[1] == GetGlb(u)
    ensures r.childrenCleared ==> exists u :: Serves(env, id, u) && env.getBytes(u).Fetched?
    ensures r.outcome != Loaded ==> r.outcome.Aborted?
    ensures forall u :: Serves(env, id, u) ==>
      r.requests == [GetMetadata(MetadataUrl(id))] + LoadGlbRun(env, u).requests
      && r.childrenCleared == env.getBytes(u).Fetched?
      && r.outcome == LoadGlbRun(env, u).outcome
    ensures (forall u :: !Serves(env, id, u)) ==>
      r.requests == [GetMetadata(MetadataUrl(id))] && !r.childrenCleared
      && r.outcome.Aborted? && r.outcome.reason in {MetadataTransport, MetadataParseThrew, MetadataInvalid}
    ensures r.outcome == Aborted(MetadataTransport) <==> env.getText(MetadataUrl(id)).FetchFailed?
    ensures r.outcome == Aborted(MetadataParseThrew) <==>
      env.getText(MetadataUrl(id)).Fetched? && env.parseModelInfo(env.getText(MetadataUrl(id)).body).ParseThrew?
  {
    var get := GetMetadata(MetadataUrl(id));
    match env.getText(MetadataUrl(id))
    case FetchFailed => Run([get], false, Aborted(MetadataTransport))
    case Fetched(response) =>
      match env.parseModelInfo(response)
      case ParseThrew => Run([get], false, Aborted(MetadataParseThrew))
      case ParsedNull => Run([get], false, Aborted(MetadataInvalid))
      case Parsed(data) =>
        match data.url
        case None => Run([get], false, Aborted(MetadataInvalid))
        case Some(url) =>
          if url == "" then Run([get], false, Aborted(MetadataInvalid))
          else
            var load := LoadGlbRun(env, url);
            assert Serves(env, id, url);
            Run([get] + load.requests, load.childrenCleared, load.outcome)
  }

  /**
   * `OnMessageReceived(message)`: clean, parse, and for a LOAD_MODEL message
   * start the metadata request for the id written in decimal. Nothing is
   * requested and nothing is destroyed unless the cleaned message parses to a
   * LOAD_MODEL message; for one, the run is `RequestModelInfoRun` of its id.
   */
  function MessageRun(env: Env, message: string): (r: Run)
    ensures Trim(message) == QUOTE ==> r == Run([], false, Aborted(CleanupThrew))
    ensures r.requests != [] <==>
      Clean(message).Some?
      && env.parseMessage(Clean(message).value).Parsed?
      && env.parseMessage(Clean(message).value).value.messageType == LOAD_MODEL
    ensures r.requests == [] ==> !r.childrenCleared && r.outcome != Loaded
    ensures r.requests != [] ==>
      r.requests[0] == GetMetadata(MetadataUrl(IntToString(env.parseMessage(Clean(message).value).value.id)))
    ensures r.requests != [] ==>
      r == RequestModelInfoRun(env, IntToString(env.parseMessage(Clean(message).value).value.id))
    ensures Clean(message).Some? && env.parseMessage(Clean(message).value).ParseThrew? ==>
      r == Run([], false, Aborted(MessageParseThrew))
    ensures Clean(message).Some? && env.parseMessage(Clean(message).value).ParsedNull? ==>
      r == Run([], false, Aborted(MessageNull))
    ensures Clean(message).Some? && env.parseMessage(Clean(message).value).Parsed? ==>
      (env.parseMessage(Clean(message).value).value.messageType != LOAD_MODEL <==> r == Run([], false, Ignored))
  {
    match Clean(message)
    case None => Run([], false, Aborted(CleanupThrew))
    case Some(cleaned) =>
      match env.parseMessage(cleaned)
      case ParseThrew => Run([], false, Aborted(MessageParseThrew))
      case ParsedNull => Run([], false, Aborted(MessageNull))
      case Parsed(data) =>
        if data.messageType == LOAD_MODEL then RequestModelInfoRun(env, IntToString(data.id))
        else Run([], false, Ignored)
  }

  /**
   * A GLB is downloaded from `u` only after a LOAD_MODEL message whose id the
   * backend answers with `u`.
   */
  lemma GlbOnlyFromServedUrl(env: Env, message: string, u: string)
    requires GetGlb(u) in MessageRun(env, message).requests
    ensures Clean(message).Some?
    ensures var m := env.parseMessage(Clean(message).value);
      m.Parsed? && m.value.messageType == LOAD_MODEL && Serves(env, IntToString(m.value.id), u)
  {
  }

  /**
   * Conversely, a LOAD_MODEL message whose id the backend answers with `u`
   * downloads `u` second; the children are destroyed exactly when that
   * download succeeds, and the model loads exactly when the URI parses and the
   * import completes with `true`.
   */
  lemma ServedUrlIsDownloaded(env: Env, message: string, u: string)
    requires Clean(message).Some?
    requires var m := env.parseMessage(Clean(message).value);
      m.Parsed? && m.value.messageType == LOAD_MODEL && Serves(env, IntToString(m.value.id), u)
    ensures var r := MessageRun(env, message);
      |r.requests| >= 2 && r.requests[1] == GetGlb(u)
      && (r.childrenCleared <==> env.getBytes(u).Fetched?)
      && (r.outcome == Loaded <==>
        env.getBytes(u).Fetched? && env.uriParses(u) && env.loadGltfBinary(env.getBytes(u).body, u) == Completed(true))
  {
  }

  /**
   * An import that completes with `false` after a served LOAD_MODEL message
   * has already destroyed the children and ends the run `ImportRejected`;
   * `WebModelLoader.OnMessageReceived` then leaves no children.
   */
  lemma ImportFalseEmpties(env: Env, message: string, u: string)
    requires Clean(message).Some?
    requires var m := env.parseMessage(Clean(message).value);
      m.Parsed? && m.value.messageType == LOAD_MODEL && Serves(env, IntToString(m.value.id), u)
    requires env.getBytes(u).Fetched? && env.uriParses(u)
    requires env.loadGltfBinary(env.getBytes(u).body, u) == Completed(false)
    ensures MessageRun(env, message).childrenCleared
    ensures MessageRun(env, message).outcome == Aborted(ImportRejected)
  {
  }

  /** `s` without `x`, order kept. */
  function Without<T(==)>(s: seq<T>, x: T): (r: seq<T>)
    ensures forall k :: 0 <= k < |r| ==> r[k] in s && r[k] != x
    ensures forall k :: 0 <= k < |s| && s[k] != x ==> s[k] in r
    ensures Distinct(s) ==> Distinct(r)
    ensures |r| <= |s|
  {
    if s == [] then [] else if s[0] == x then Without(s[1..], x) else [s[0]] + Without(s[1..], x)
  }

  predicate Distinct<T(==)>(s: seq<T>) {
    forall i, j :: 0 <= i < j < |s| ==> s[i] != s[j]
  }

  /** Removing the first of distinct elements leaves the rest, in order. */
  lemma {:induction false} WithoutFirst<T>(s: seq<T>)
    requires |s| > 0 && Distinct(s)
    ensures Without(s, s[0]) == s[1..]
  {
    WithoutAbsent(s[1..], s[0]);
  }

  lemma {:induction false} WithoutAbsent<T>(s: seq<T>, x: T)
    requires x !in s
    ensures Without(s, x) == s
  {
    if s != [] {
      WithoutAbsent(s[1..], x);
    }
  }

  /** A scene-graph node; `destroyed` records Unity's `Destroy`. */
  class GameObject {
    const name: string
    var destroyed: bool

    constructor (name: string)
      ensures this.name == name && !destroyed
    {
      this.name := name;
      destroyed := false;
    }
  }

  /** The hosting node, whose child list the pipeline rewrites. */
  class WebModelLoader {
    var children: seq<GameObject>

    ghost predicate Valid()
      reads this, children
    {
      Distinct(children) && forall k :: 0 <= k < |children| ==> !children[k].destroyed
    }

    constructor (initial: seq<GameObject>)
      requires Distinct(initial) && forall k :: 0 <= k < |initial| ==> !initial[k].destroyed
      ensures Valid() && children == initial
    {
      children := initial;
    }

    /** `Destroy(child.gameObject)`, taken to act at once: the child leaves the list. */
    method Destroy(child: GameObject)
      requires Valid() && child in children
      modifies this, child
      ensures Valid()
      ensures children == Without(old(children), child) && child.destroyed
    {
      child.destroyed := true;
      children := Without(children, child);
    }

    /** `foreach (Transform child in this.transform) Destroy(child.gameObject)`. */
    method DestroyChildren()
      requires Valid()
      modifies this, children
      ensures Valid() && children == []
      ensures forall c :: c in old(children) ==> c.destroyed
    {
      var snapshot := children;
      var i := 0;
      while i < |snapshot|
        invariant 0 <= i <= |snapshot|
        invariant Valid()
        invariant children == snapshot[i..]
        invariant forall k :: 0 <= k < i ==> snapshot[k].destroyed
      {
        WithoutFirst(snapshot[i..]);
        Destroy(snapshot[i]);
        i := i + 1;
      }
    }

    /** `LoadGLB(url)` run to completion. */
    method LoadGlb(env: Env, url: string) returns (run: Run)
      requires Valid()
      modifies this, children
      ensures Valid() && run == LoadGlbRun(env, url)
      ensures !run.childrenCleared ==> children == old(children)
      ensures run.childrenCleared ==> forall c :: c in old(children) ==> c.destroyed
      ensures run.childrenCleared && run.outcome != Loaded ==> children == []
      ensures run.outcome == Loaded ==>
        |children| == 1 && fresh(children[0]) && children[0].name == MODEL_ROOT_NAME
    {
      var response := env.getBytes(url);
      if response.FetchFailed? {
        return Run([GetGlb(url)], false, Aborted(GlbTransport));
      }
      var glbBytes := response.body;
      DestroyChildren();
      if !env.uriParses(url) {
        return Run([GetGlb(url)], true, Aborted(UriThrew));
      }
      var requests := [GetGlb(url), ImportGlb(url)];
      var loadTask := env.loadGltfBinary(glbBytes, url);
      if loadTask.Faulted? {
        return Run(requests, true, Aborted(ImportFaulted));
      }
      if loadTask.Canceled? {
        return Run(requests, true, Aborted(ImportCanceled));
      }
      if !loadTask.ok {
        return Run(requests, true, Aborted(ImportRejected));
      }
      var root := new GameObject(MODEL_ROOT_NAME);
      children := children + [root];
      run := Run(requests, true, Loaded);
    }

    /** `RequestModelInfo(id)` run to completion. */
    method RequestModelInfo(env: Env, id: string) returns (run: Run)
      requires Valid()
      modifies this, children
      ensures Valid() && run == RequestModelInfoRun(env, id)
      ensures !run.childrenCleared ==> children == old(children)
      ensures run.childrenCleared ==> forall c :: c in old(children) ==> c.destroyed
      ensures run.childrenCleared && run.outcome != Loaded ==> children == []
      ensures run.outcome == Loaded ==>
        |children| == 1 && fresh(children[0]) && children[0].name == MODEL_ROOT_NAME
    {
      var apiUrl := MetadataUrl(id);
      var get := GetMetadata(apiUrl);
      var req := env.getText(apiUrl);
      if req.FetchFailed? {
        return Run([get], false, Aborted(MetadataTransport));
      }
      var parsed := env.parseModelInfo(req.body);
      if parsed.ParseThrew? {
        return Run([get], false, Aborted(MetadataParseThrew));
      }
      if parsed.ParsedNull? || parsed.value.url.None? || parsed.value.url.value == "" {
        return Run([get], false, Aborted(MetadataInvalid));
      }
      var load := LoadGlb(env, parsed.value.url.value);
      run := Run([get] + load.requests, load.childrenCleared, load.outcome);
    }

    /** `OnMessageReceived(message)`, with the coroutine it starts run to completion. */
    method OnMessageReceived(env: Env, message: string) returns (run: Run)
      requires Valid()
      modifies this, children
      ensures Valid() && run == MessageRun(env, message)
      ensures !run.childrenCleared ==> children == old(children)
      ensures run.childrenCleared ==> forall c :: c in old(children) ==> c.destroyed
      ensures run.childrenCleared && run.outcome != Loaded ==> children == []
      ensures run.outcome == Loaded ==>
        |children| == 1 && fresh(children[0]) && children[0].name == MODEL_ROOT_NAME
    {
      var cleaned := Clean(message);
      if cleaned.None? {
        return Run([], false, Aborted(CleanupThrew));
      }
      var data := env.parseMessage(cleaned.value);
      if data.ParseThrew? {
        return Run([], false, Aborted(MessageParseThrew));
      }
      if data.ParsedNull? {
        return Run([], false, Aborted(MessageNull));
      }
      if data.value.messageType == LOAD_MODEL {
        run := RequestModelInfo(env, IntToString(data.value.id));
      } else {
        run := Run([], false, Ignored);
      }
    }
  }
}
