/**
 The git proxy's gate, internal/gitproxy/gitproxy.go: a request is routed to a tracked repo,
 a push is checked against the repo's tier, and what passes is forwarded upstream. The request
 body is a stream that checking consumes and then replays.
 */
module GitGate {
  import opened Base
  import opened Search
  import opened RefCommands
  import opened RefCommandsRoundTrip
  import opened RepoAccess

  datatype Operation = Fetch | Push

  /** What the proxy knows of a repo: gitproxy.Repo. */
  datatype Repo = Repo(path: string, access: Access, defaultBranch: string, token: string)

  datatype Lookup = Missing | Failed | Found(repo: Repo)

  datatype Refusal = NotFound | Forbidden | BadGateway

  /** What the upstream receives. */
  datatype Response = Refuse(why: Refusal) | Forward(verb: string, path: string, body: string, token: string)

  /** The parts of a request the gate looks at, its body read to the end. */
  datatype Sight = Sight(verb: string, path: string, service: string, encoding: string, body: string)

  // ---- Routing --------------------------------------------------------------------------------

  const SUFFIX := ".git/"

  function TrimSlash(path: string): string {
    if path != "" && path[0] == '/' then path[1..] else path
  }

  /** splitProxyPath: the repo's name and the endpoint. */
  function SplitProxyPath(path: string): Option<(string, string)> {
    var trimmed := TrimSlash(path);
    match FindText(trimmed, SUFFIX, 0)
    case None => None
    case Some(i) =>
      var name, endpoint := trimmed[..i], trimmed[i + |SUFFIX|..];
      if i == 0 || endpoint == "" || Find(name, '/', 0) < |name| then None else Some((name, endpoint))
  }

  function Classify(endpoint: string, service: string): Option<Operation> {
    if endpoint == "info/refs" then
      if service == "git-upload-pack" then Some(Fetch) else if service == "git-receive-pack" then Some(Push) else None
    else if endpoint == "git-upload-pack" then Some(Fetch)
    else if endpoint == "git-receive-pack" then Some(Push)
    else None
  }

  function UpstreamPath(repo: Repo, path: string): string {
    match SplitProxyPath(path)
    case None => path
    case Some(parts) => "/" + repo.path + ".git/" + parts.1
  }

  // ---- Checking a push ------------------------------------------------------------------------

  const BRANCHES := "refs/heads/"

  predicate AllowedRef(ref: string, defaultBranch: string) {
    ref != BRANCHES + defaultBranch && BRANCHES <= ref
  }

  predicate OnlyAllowedRefs(commands: seq<RefCommand>, defaultBranch: string) {
    commands != [] && forall i | 0 <= i < |commands| :: AllowedRef(commands[i].ref, defaultBranch)
  }

  /** checkPush lets the request through. */
  predicate PushAllowed(r: Sight, repo: Repo) {
    match repo.access
    case FullWrite => true
    case PullRequestsOnly =>
      r.verb != "POST"
      || (r.encoding == "" && Parse(r.body).Commands? && OnlyAllowedRefs(Parse(r.body).commands, repo.defaultBranch))
    case _ => false
  }

  /** checkPullRequestsOnly */
  method CheckPullRequestsOnly(commands: seq<RefCommand>, defaultBranch: string) returns (ok: bool)
    ensures ok == OnlyAllowedRefs(commands, defaultBranch)
  {
    if commands == [] { return false; }
    for i := 0 to |commands|
      invariant forall j | 0 <= j < i :: AllowedRef(commands[j].ref, defaultBranch)
    {
      var ref := commands[i].ref;
      if ref == BRANCHES + defaultBranch || !(BRANCHES <= ref) { return false; }
    }
    return true;
  }

  class Request {
    const verb: string
    const path: string
    const service: string
    const encoding: string
    var body: Body

    constructor (r: Sight)
      ensures View() == r && fresh(body)
    {
      verb, path, service, encoding := r.verb, r.path, r.service, r.encoding;
      body := new Body(r.body);
    }

    /** The request as it would be forwarded now. */
    function View(): Sight
      reads this, body
    {
      Sight(verb, path, service, encoding, body.unread)
    }
  }

  method CheckPush(r: Request, repo: Repo) returns (ok: bool)
    modifies r, r.body
    ensures ok == PushAllowed(old(r.View()), repo)
    ensures ok ==> r.View() == old(r.View())
  {
    if repo.access == FullWrite { return true; }
    if repo.access != PullRequestsOnly { return false; }
    if r.verb != "POST" { return true; }
    if r.encoding != "" { return false; }
    var parsed, consumed := ParseRefCommands(r.body);
    if parsed.Refused? { return false; }
    r.body := new Body(consumed + r.body.unread);
    ok := CheckPullRequestsOnly(parsed.commands, repo.defaultBranch);
  }

  // ---- Handling a request ---------------------------------------------------------------------

  /** What the gate does with a request, its lookup given as a function of the name. */
  function Respond(r: Sight, found: Lookup): Response {
    match SplitProxyPath(r.path)
    case None => Refuse(NotFound)
    case Some(parts) =>
      match Classify(parts.1, r.service)
      case None => Refuse(Forbidden)
      case Some(op) =>
        match found
        case Failed => Refuse(BadGateway)
        case Missing => Refuse(NotFound)
        case Found(repo) =>
          if op == Push && !PushAllowed(r, repo) then Refuse(Forbidden)
          else Forward(r.verb, UpstreamPath(repo, r.path), r.body, repo.token)
  }

  /** The store and the secrets behind newGitProxyLookup: whether the store reads, the upstream path
      of each URL that has one, and the token of each credential slot. */
  datatype Backing = Backing(
    readable: bool, repos: map<string, TrackedRepo>, paths: map<string, string>, tokens: map<string, string>)

  function LookUp(b: Backing, name: string, now: int): Lookup {
    if !b.readable then Failed
    else if name !in b.repos then Missing
    else
      var tracked := b.repos[name];
      if tracked.url !in b.paths then Failed
      else
        var token := if tracked.credential in b.tokens then b.tokens[tracked.credential] else "";
        Found(Repo(b.paths[tracked.url], EffectiveAccess(tracked, now), tracked.branch, token))
  }

  function Serve(b: Backing, now: int, r: Sight): Response {
    match SplitProxyPath(r.path)
    case None => Refuse(NotFound)
    case Some(parts) => Respond(r, LookUp(b, parts.0, now))
  }

  method Handle(b: Backing, now: int, r: Request) returns (response: Response)
    modifies r, r.body
    ensures response == Serve(b, now, old(r.View()))
  {
    var parts := SplitProxyPath(r.path);
    if parts.None? { return Refuse(NotFound); }
    var operation := Classify(parts.value.1, r.service);
    if operation.None? { return Refuse(Forbidden); }
    var found := LookUp(b, parts.value.0, now);
    if found.Failed? { return Refuse(BadGateway); }
    if found.Missing? { return Refuse(NotFound); }
    if operation.value == Push {
      var ok := CheckPush(r, found.repo);
      if !ok { return Refuse(Forbidden); }
    }
    return Forward(r.verb, UpstreamPath(found.repo, r.path), r.body.unread, found.repo.token);
  }

  // ---- What the gate promises -----------------------------------------------------------------

  predicate GoodName(name: string) {
    name != "" && forall i | 0 <= i < |name| :: name[i] != '/'
  }

  /** A path splits one way at most, and exactly the paths of the form /name.git/endpoint do,
      with or without the leading slash. */
  lemma PathSplitsExactly(path: string, name: string, endpoint: string)
    ensures SplitProxyPath(path) == Some((name, endpoint))
        <==> GoodName(name) && endpoint != "" && TrimSlash(path) == name + (SUFFIX + endpoint)
  {
    var t := TrimSlash(path);
    if GoodName(name) && endpoint != "" && t == name + (SUFFIX + endpoint) {
      FirstSuffix(name, endpoint);
    }
  }

  lemma FirstSuffix(name: string, endpoint: string)
    requires GoodName(name)
    ensures var t := name + (SUFFIX + endpoint);
            FindText(t, SUFFIX, 0) == Some(|name|) && t[..|name|] == name && t[|name| + |SUFFIX|..] == endpoint
  {
    var t := name + (SUFFIX + endpoint);
    assert t[|name|..|name| + |SUFFIX|] == SUFFIX;
    forall j | 0 <= j < |name| ensures !Occurs(t, SUFFIX, j) {
      assert t[j + 4] != '/';
      assert t[j..j + |SUFFIX|][4] == t[j + 4];
    }
    FirstOccurrence(t, SUFFIX, |name|);
  }

  predicate GitEndpoint(endpoint: string) {
    endpoint == "info/refs" || endpoint == "git-upload-pack" || endpoint == "git-receive-pack"
  }

  /** Whatever is forwarded goes out as it came in, to one of Git's three endpoints under the
      upstream path and with the token of the repo the path names. */
  lemma ForwardedAsSent(b: Backing, now: int, r: Sight) returns (name: string, endpoint: string)
    requires Serve(b, now, r).Forward?
    ensures GoodName(name) && GitEndpoint(endpoint) && TrimSlash(r.path) == name + (SUFFIX + endpoint)
    ensures LookUp(b, name, now).Found?
    ensures var token := if b.repos[name].credential in b.tokens then b.tokens[b.repos[name].credential] else "";
            Serve(b, now, r)
            == Forward(r.verb, "/" + b.paths[b.repos[name].url] + ".git/" + endpoint, r.body, token)
  {
    var parts := SplitProxyPath(r.path).value;
    name, endpoint := parts.0, parts.1;
    PathSplitsExactly(r.path, name, endpoint);
  }

  /** When a push is forwarded: the tier in force decides, and below full write a POST must carry
      commands that parse and write branches other than the default one. Any other method is not
      looked into. */
  lemma PushForwardedExactly(b: Backing, now: int, r: Sight, name: string)
    requires GoodName(name) && TrimSlash(r.path) == name + (SUFFIX + "git-receive-pack")
    ensures Serve(b, now, r).Forward?
        <==> b.readable && name in b.repos && b.repos[name].url in b.paths
             && (EffectiveAccess(b.repos[name], now) == FullWrite
                 || (EffectiveAccess(b.repos[name], now) == PullRequestsOnly
                     && (r.verb == "POST" ==>
                           r.encoding == "" && Parse(r.body).Commands?
                           && OnlyAllowedRefs(Parse(r.body).commands, b.repos[name].branch))))
  {
    PathSplitsExactly(r.path, name, "git-receive-pack");
  }

  // ---- Every answer ---------------------------------------------------------------------------

  /** The two forms of a path that names an endpoint of a repo. */
  predicate Names(path: string, name: string, endpoint: string) {
    GoodName(name) && endpoint != ""
    && (path == name + (".git/" + endpoint) || path == "/" + (name + (".git/" + endpoint)))
  }

  /** A request that reads, whatever it carries. */
  predicate Fetches(r: Sight, endpoint: string) {
    endpoint == "git-upload-pack" || (endpoint == "info/refs" && r.service == "git-upload-pack")
  }

  predicate Pushes(r: Sight, endpoint: string) {
    endpoint == "git-receive-pack" || (endpoint == "info/refs" && r.service == "git-receive-pack")
  }

  /** The repo is there, with an upstream path. */
  predicate Reachable(b: Backing, name: string) {
    b.readable && name in b.repos && b.repos[name].url in b.paths
  }

  /** Commands that leave the default branch, and everything that is no branch, alone. */
  predicate LeavesDefault(commands: seq<RefCommand>, branch: string) {
    commands != [] && forall i | 0 <= i < |commands| ::
      "refs/heads/" <= commands[i].ref && commands[i].ref != "refs/heads/" + branch
  }

  /** Whether the tier in force lets a push through. */
  predicate MayPush(b: Backing, now: int, r: Sight, name: string)
    requires name in b.repos
  {
    var tier := EffectiveAccess(b.repos[name], now);
    || tier == FullWrite
    || (tier == PullRequestsOnly
        && (r.verb == "POST" ==>
              r.encoding == "" && Parse(r.body).Commands?
              && LeavesDefault(Parse(r.body).commands, b.repos[name].branch)))
  }

  lemma NamesExactly(path: string, name: string, endpoint: string)
    ensures Names(path, name, endpoint) <==> SplitProxyPath(path) == Some((name, endpoint))
  {
    PathSplitsExactly(path, name, endpoint);
    if GoodName(name) && endpoint != "" {
      var t := name + (SUFFIX + endpoint);
      assert t[0] == name[0] != '/' && ("/" + t)[1..] == t;
      if TrimSlash(path) == t && path != t { assert path == "/" + path[1..]; }
    }
  }

  /** What the gate answers a request that names a repo's endpoint, whatever the tier: a fetch is
      forwarded exactly when the repo is reachable, a push exactly when the tier in force allows it
      too; anything else is forbidden. */
  lemma GateAnswersExactly(b: Backing, now: int, r: Sight, name: string, endpoint: string)
    requires Names(r.path, name, endpoint)
    ensures Serve(b, now, r).Forward?
        <==> Reachable(b, name) && (Fetches(r, endpoint) || (Pushes(r, endpoint) && MayPush(b, now, r, name)))
    ensures Serve(b, now, r) == Refuse(Forbidden)
        <==> (!Fetches(r, endpoint) && !Pushes(r, endpoint))
             || (Pushes(r, endpoint) && Reachable(b, name) && !MayPush(b, now, r, name))
    ensures Serve(b, now, r) == Refuse(NotFound)
        <==> (Fetches(r, endpoint) || Pushes(r, endpoint)) && b.readable && name !in b.repos
    ensures Serve(b, now, r) == Refuse(BadGateway)
        <==> (Fetches(r, endpoint) || Pushes(r, endpoint))
             && (!b.readable || (name in b.repos && b.repos[name].url !in b.paths))
  {
    hide Parse, SplitProxyPath, GoodName;
    NamesExactly(r.path, name, endpoint);
    if name in b.repos { SameRefs(r, b.repos[name].branch); }
  }

  lemma SameRefs(r: Sight, branch: string)
    ensures Parse(r.body).Commands? ==>
              (LeavesDefault(Parse(r.body).commands, branch) <==> OnlyAllowedRefs(Parse(r.body).commands, branch))
  {
    hide Parse;
  }

  /** And a path that names none is not found. */
  lemma OtherPathsNotFound(b: Backing, now: int, r: Sight)
    requires forall name, endpoint :: !Names(r.path, name, endpoint)
    ensures Serve(b, now, r) == Refuse(NotFound)
  {
    if SplitProxyPath(r.path).Some? {
      var parts := SplitProxyPath(r.path).value;
      NamesExactly(r.path, parts.0, parts.1);
    }
  }

  // ---- Pushes as Git writes them --------------------------------------------------------------

  predicate SendsOnlyAllowedRefs(xs: seq<Sent>, defaultBranch: string) {
    xs != [] && forall i | 0 <= i < |xs| :: AllowedRef(xs[i].command.ref, defaultBranch)
  }

  lemma {:induction false} SendingsIndexed(xs: seq<Sent>)
    ensures |Sendings(xs)| == |xs| && forall i | 0 <= i < |xs| :: Sendings(xs)[i] == xs[i].command
  {
    if xs != [] { SendingsIndexed(xs[1..]); }
  }

  /** The same for a push as Git writes one, of any commands and any packfile: at the pull-request
      tier it is forwarded exactly when its commands fit the limit and each writes an allowed ref. */
  lemma GitPushForwardedExactly(b: Backing, now: int, r: Sight, name: string, xs: seq<Sent>, pack: string)
    requires GoodName(name) && TrimSlash(r.path) == name + (SUFFIX + "git-receive-pack")
    requires r.verb == "POST" && r.encoding == "" && AllWellFormed(xs) && r.body == Encode(xs) + pack
    requires b.readable && name in b.repos && b.repos[name].url in b.paths
    requires EffectiveAccess(b.repos[name], now) == PullRequestsOnly
    ensures Serve(b, now, r).Forward?
        <==> |Encode(xs)| <= COMMAND_SECTION_LIMIT && SendsOnlyAllowedRefs(xs, b.repos[name].branch)
  {
    hide Parse, Encode;
    PushForwardedExactly(b, now, r, name);
    PushReadsBack(xs, pack);
    SendingsIndexed(xs);
  }

  /** The store behind the gate once it has been swept. */
  function Swept(b: Backing, clones: set<string>, passes: seq<Pass>): Backing {
    b.(repos := SweepAll(Holdings(b.repos, clones), passes).repos)
  }

  /** The gate answers a request the same before and after any sweeps that came no later, unless
      the request comes at the very instant a push grant ends and a sweep has run at that instant. */
  lemma SweepsKeepTheGate(b: Backing, clones: set<string>, passes: seq<Pass>, t: int, r: Sight)
    requires Named(b.repos) && forall i | 0 <= i < |passes| :: passes[i].now <= t
    requires forall n :: n in b.repos && b.repos[n].dropToReadOnlyAt == Some(t) ==> !SweptAt(passes, n, t)
    ensures Serve(Swept(b, clones, passes), t, r) == Serve(b, t, r)
  {
    var parts := SplitProxyPath(r.path);
    if parts.Some? && parts.value.0 in b.repos {
      SweepsKeepAccess(Holdings(b.repos, clones), passes, parts.value.0, t);
      SweepsKeepTheRest(Holdings(b.repos, clones), passes, parts.value.0);
    } else {
      SweepsKeepNames(Holdings(b.repos, clones), passes);
    }
  }

  /** Once a grant has ended nothing is pushed any more, swept or not. */
  lemma EndedGrantPushesNothing(b: Backing, clones: set<string>, passes: seq<Pass>,
                                t: int, r: Sight, name: string, ends: int)
    requires Named(b.repos) && forall i | 0 <= i < |passes| :: passes[i].now <= t
    requires GoodName(name) && TrimSlash(r.path) == name + (SUFFIX + "git-receive-pack")
    requires name in b.repos && b.repos[name].dropToReadOnlyAt == Some(ends) && ends < t
    ensures !Serve(Swept(b, clones, passes), t, r).Forward?
  {
    var later := Swept(b, clones, passes);
    SweepsKeepAccess(Holdings(b.repos, clones), passes, name, t);
    PushForwardedExactly(later, t, r, name);
  }
}
