/** The finder's follower: it accepts complete "ndi" documents only, and recreates the finder when
    the document changes. Whatever the order of delivery, it converges. */
module FollowerConfig {
  import opened FollowerProtocol
  import opened Wrappers

  datatype TransportConfig = TransportConfig(rxpm: string)
  datatype FinderConfig = FinderConfig(serverMode: string, serverIp: string, receiverAdvertising: bool, remoteControl: bool)
  datatype NdiConfig = NdiConfig(transport: TransportConfig, finder: FinderConfig, groups: string,
                                 offSubnetIps: string, tallyMode: string, colorSpace: string)

  type ParseNdi = Json -> Result<NdiConfig, string>

  datatype Finder = Finder(revision: Revision, config: Option<NdiConfig>, document: Json)
  const UNCONFIGURED := Finder(NO_REVISION, None, Null)

  // The "ndi" document of a request, or why there is none.
  function Document(f: Finder, request: Json): Result<Json, Fault> {
    match f.revision.Check(request)
    case Err(fault) => Err(fault)
    case Ok(_) =>
      match At(request, "config")
      case Err(fault) => Err(fault)
      case Ok(domains) =>
        if !domains.Obj? || |domains.fields| != 1 || "ndi" !in domains.fields then Err(NotJustNdi)
        else Ok(domains.fields["ndi"])
  }

  // A document that parses; the finder has to be recreated first unless it is unchanged.
  function Given(f: Finder, n: nat, document: Json, parse: ParseNdi, recreates: bool): (Finder, Response) {
    match parse(document)
    case Err(what) => (f, Refused({BadDomain("ndi", what)}))
    case Ok(config) =>
      if (f.config.None? || f.document != document) && !recreates then (f, Refused({RecreationFailed}))
      else (Finder(f.revision.Commit(n), Some(config), document), Accepted(n))
  }

  function Applied(f: Finder, request: Json, parse: ParseNdi, recreates: bool): (Finder, Response) {
    match Document(f, request)
    case Err(fault) => (f, Refused({fault}))
    case Ok(document) => Given(f, f.revision.Check(request).value, document, parse, recreates)
  }

  class NdiFollower {
    var revision: Revision
    var config: Option<NdiConfig>
    var document: Json
    // The configurations the finder was recreated with.
    ghost var recreated: seq<NdiConfig>

    function State(): Finder
      reads this
    {
      Finder(revision, config, document)
    }

    // The finder that runs was made from the configuration reported.
    ghost predicate Valid(parse: ParseNdi)
      reads this
    {
      && config.Some? == revision.applied
      && (config.Some? ==> parse(document) == Ok(config.value) && recreated != [] && recreated[|recreated| - 1] == config.value)
    }

    constructor (parse: ParseNdi)
      ensures Valid(parse) && State() == UNCONFIGURED
    {
      revision, config, document, recreated := NO_REVISION, None, Null, [];
    }

    method ApplyConfig(request: Json, parse: ParseNdi, recreates: bool) returns (response: Response)
      requires Valid(parse)
      modifies this
      ensures Valid(parse)
      ensures (State(), response) == Applied(old(State()), request, parse, recreates)
      ensures recreated == old(recreated) +
        if response.Accepted? && (old(config).None? || old(document) != document) then [config.value] else []
    {
      var next;
      match revision.Check(request) {
        case Err(f) => return Refused({f});
        case Ok(n) => next := n;
      }
      var domains;
      match At(request, "config") {
        case Err(f) => return Refused({f});
        case Ok(d) => domains := d;
      }
      if !domains.Obj? || |domains.fields| != 1 || "ndi" !in domains.fields { return Refused({NotJustNdi}); }
      match parse(domains.fields["ndi"]) {
        case Err(what) => return Refused({BadDomain("ndi", what)});
        case Ok(candidate) =>
          if config.None? || document != domains.fields["ndi"] {
            if !recreates { return Refused({RecreationFailed}); }
            recreated := recreated + [candidate];
          }
          config := Some(candidate);
          document := domains.fields["ndi"];
          revision := revision.Commit(next);
          return Accepted(next);
      }
    }
  }

  // ---------- every request ----------

  // A request is accepted exactly if it passes, hands over the "ndi" document alone, that parses,
  // and the finder could be recreated or need not be, since it already runs on this document.
  lemma AcceptedIff(f: Finder, request: Json, parse: ParseNdi, recreates: bool)
    ensures var (g, response) := Applied(f, request, parse, recreates);
            && (response.Accepted? <==>
                 && f.revision.Check(request).Ok?
                 && "config" in request.fields && request.fields["config"].Obj?
                 && request.fields["config"].fields.Keys == {"ndi"}
                 && parse(request.fields["config"].fields["ndi"]).Ok?
                 && (recreates || (f.config.Some? && f.document == request.fields["config"].fields["ndi"])))
            && (response.Accepted? ==>
                 && g.revision == Revision(true, request.fields["revision"].i) && response.revision == g.revision.value
                 && g.document == request.fields["config"].fields["ndi"] && g.config == Some(parse(g.document).value))
            && (response.Refused? ==> g == f)
  {
    PassesIff(f.revision, request);
    if f.revision.Check(request).Ok? && "config" in request.fields && request.fields["config"].Obj? {
      OnlyKey(request.fields["config"].fields, "ndi");
    }
  }

  lemma OnlyKey(m: map<string, Json>, key: string)
    ensures m.Keys == {key} <==> |m| == 1 && key in m
  {
    if |m| == 1 && key in m {
      assert |m.Keys - {key}| == 0;
      assert m.Keys == {key} + (m.Keys - {key});
    }
  }

  // A refused or failed request changes nothing; an accepted one never goes back without "reset".
  lemma StepNeverGoesBack(f: Finder, request: Json, parse: ParseNdi, recreates: bool)
    ensures var (g, response) := Applied(f, request, parse, recreates);
            && (response.Refused? ==> g == f)
            && (response.Accepted? ==> g.revision == Revision(true, response.revision))
            && (!Resets(request) && f.revision.applied ==> g.revision.applied && f.revision.value <= g.revision.value)
  {}

  function Run(f: Finder, requests: seq<Json>, parse: ParseNdi, recreates: seq<bool>): Finder
    requires |recreates| == |requests|
    decreases |requests|
  {
    if requests == [] then f
    else Run(Applied(f, requests[0], parse, recreates[0]).0, requests[1..], parse, recreates[1..])
  }

  lemma {:induction false} RevisionNeverDecreases(f: Finder, requests: seq<Json>, parse: ParseNdi, recreates: seq<bool>)
    requires |recreates| == |requests| && forall i :: 0 <= i < |requests| ==> !Resets(requests[i])
    ensures var g := Run(f, requests, parse, recreates);
            f.revision.applied ==> g.revision.applied && f.revision.value <= g.revision.value
    decreases |requests|
  {
    if requests != [] {
      StepNeverGoesBack(f, requests[0], parse, recreates[0]);
      RevisionNeverDecreases(Applied(f, requests[0], parse, recreates[0]).0, requests[1..], parse, recreates[1..]);
    }
  }

  // ---------- convergence ----------

  // One content per revision.
  type History = nat -> Json

  ghost predicate Delivers(request: Json, n: nat, content: History) {
    Carries(request, n, Obj(map["ndi" := content(n)])) && !Resets(request)
  }

  // A delivery that can be accepted at some time.
  ghost predicate DeliversValid(request: Json, n: nat, content: History, parse: ParseNdi) {
    Delivers(request, n, content) && parse(content(n)).Ok?
  }

  // A request no state accepts: not a finder document at all.
  ghost predicate Hopeless(request: Json) {
    forall f: Finder :: Document(f, request).Err?
  }

  ghost predicate FromHistory(requests: seq<Json>, content: History) {
    forall i :: 0 <= i < |requests| ==> Hopeless(requests[i]) || exists n: nat :: Delivers(requests[i], n, content)
  }

  ghost predicate Highest(requests: seq<Json>, n: nat, content: History, parse: ParseNdi) {
    && (exists i :: 0 <= i < |requests| && DeliversValid(requests[i], n, content, parse))
    && forall i, m: nat :: 0 <= i < |requests| && DeliversValid(requests[i], m, content, parse) ==> m <= n
  }

  ghost predicate NoneValid(requests: seq<Json>, content: History, parse: ParseNdi) {
    forall i, m: nat :: 0 <= i < |requests| ==> !DeliversValid(requests[i], m, content, parse)
  }

  // The state that holds the content of revision n.
  ghost predicate Holds(f: Finder, n: nat, content: History, parse: ParseNdi) {
    parse(content(n)).Ok? && f == Finder(Revision(true, n), Some(parse(content(n)).value), content(n))
  }

  lemma SameRevision(request: Json, m: nat, n: nat, content: History)
    requires Delivers(request, m, content) && Delivers(request, n, content)
    ensures m == n
  {}

  lemma HopelessDeliversNothing(request: Json, m: nat, content: History)
    requires Hopeless(request)
    ensures !Delivers(request, m, content)
  {
    assert Document(UNCONFIGURED, request).Err?;
  }

  // One request from the history, on a state that holds revision k or nothing.
  lemma Received(f: Finder, request: Json, content: History, parse: ParseNdi)
    requires Hopeless(request) || exists n: nat :: Delivers(request, n, content)
    requires f == UNCONFIGURED || Holds(f, f.revision.value, content, parse)
    ensures var g := Applied(f, request, parse, true).0;
            && (g == f || (DeliversValid(request, g.revision.value, content, parse) && Holds(g, g.revision.value, content, parse)))
            && (f != UNCONFIGURED ==> g != UNCONFIGURED && f.revision.value <= g.revision.value)
            && (forall m: nat :: DeliversValid(request, m, content, parse) ==> g != UNCONFIGURED && m <= g.revision.value)
  {
    if Hopeless(request) {
      assert Document(f, request).Err?;
      forall m: nat
        ensures !Delivers(request, m, content)
      {
        HopelessDeliversNothing(request, m, content);
      }
    } else {
      var n: nat :| Delivers(request, n, content);
      forall m: nat | DeliversValid(request, m, content, parse)
        ensures m == n
      {
        SameRevision(request, m, n, content);
      }
    }
  }

  // The state after a run from one that holds revision k or nothing.
  lemma {:induction false} Converged(f: Finder, requests: seq<Json>, content: History, parse: ParseNdi)
    requires FromHistory(requests, content)
    requires f == UNCONFIGURED || Holds(f, f.revision.value, content, parse)
    ensures var g := Run(f, requests, parse, seq(|requests|, _ => true));
            && (g == f || (Holds(g, g.revision.value, content, parse)
                           && exists i :: 0 <= i < |requests| && DeliversValid(requests[i], g.revision.value, content, parse)))
            && (f != UNCONFIGURED ==> g != UNCONFIGURED && f.revision.value <= g.revision.value)
            && (forall i, m: nat :: 0 <= i < |requests| && DeliversValid(requests[i], m, content, parse) ==>
                  g != UNCONFIGURED && m <= g.revision.value)
    decreases |requests|
  {
    hide Applied, DeliversValid, Delivers, Hopeless, Holds;
    if requests != [] {
      Received(f, requests[0], content, parse);
      var f1, rest := Applied(f, requests[0], parse, true).0, requests[1..];
      assert FromHistory(rest, content) by {
        forall i | 0 <= i < |rest|
          ensures Hopeless(rest[i]) || exists n: nat :: Delivers(rest[i], n, content)
        {
          assert rest[i] == requests[i + 1];
        }
      }
      Converged(f1, rest, content, parse);
      assert seq(|requests|, _ => true)[1..] == seq(|rest|, _ => true);
      var g := Run(f1, rest, parse, seq(|rest|, _ => true));
      if g != f1 {
        var i :| 0 <= i < |rest| && DeliversValid(rest[i], g.revision.value, content, parse);
        assert requests[i + 1] == rest[i];
      }
      forall i, m: nat | 0 <= i < |requests| && DeliversValid(requests[i], m, content, parse)
        ensures g != UNCONFIGURED && m <= g.revision.value
      {
        if i > 0 { assert rest[i - 1] == requests[i]; }
      }
    }
  }

  // Any order of delivery, with duplicates, ends in the configuration of the highest delivered
  // valid revision.
  lemma Converges(requests: seq<Json>, n: nat, content: History, parse: ParseNdi)
    requires FromHistory(requests, content) && Highest(requests, n, content, parse)
    ensures Holds(Run(UNCONFIGURED, requests, parse, seq(|requests|, _ => true)), n, content, parse)
  {
    hide Run, Delivers, FromHistory;
    Converged(UNCONFIGURED, requests, content, parse);
    var g := Run(UNCONFIGURED, requests, parse, seq(|requests|, _ => true));
    var i :| 0 <= i < |requests| && DeliversValid(requests[i], n, content, parse);
    assert n <= g.revision.value;
    assert g.revision.value <= n;
  }

  // With nothing valid delivered, nothing happens.
  lemma StaysUnconfigured(requests: seq<Json>, content: History, parse: ParseNdi)
    requires FromHistory(requests, content) && NoneValid(requests, content, parse)
    ensures Run(UNCONFIGURED, requests, parse, seq(|requests|, _ => true)) == UNCONFIGURED
  {
    Converged(UNCONFIGURED, requests, content, parse);
  }
}
