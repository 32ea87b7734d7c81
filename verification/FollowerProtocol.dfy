/** The control protocol shared by the followers: JSON values, global document revisions, and the
    framing of one request per line. */
module FollowerProtocol {
  import opened Numbers
  import opened Wrappers

  datatype Json =
    | Null
    | Bool(b: bool)
    | Int(i: int)
    | Real(r: real)
    | Str(s: string)
    | Arr(items: seq<Json>)
    | Obj(fields: map<string, Json>)

  // Why a request is refused. Malformed stands for every error of the JSON library.
  datatype Fault =
    | Malformed
    | NotAnInteger
    | NotABoolean
    | Older
    | NoDomains
    | NotJustNdi
    | RecreationFailed
    | AudioRefused(reason: string)
    | BadDomain(domain: string, reason: string)

  datatype Response = Accepted(revision: nat) | Refused(faults: set<Fault>)

  function At(j: Json, key: string): Result<Json, Fault> {
    if j.Obj? && key in j.fields then Ok(j.fields[key]) else Err(Malformed)
  }

  // The last applied revision; an older one needs "reset".
  datatype Revision = Revision(applied: bool, value: nat) {
    function Check(request: Json): Result<nat, Fault> {
      match At(request, "revision")
      case Err(f) => Err(f)
      case Ok(r) =>
        if !r.Int? || r.i < 0 then Err(NotAnInteger)
        else if "reset" in request.fields && !request.fields["reset"].Bool? then Err(NotABoolean)
        else if applied && r.i < value && !Resets(request) then Err(Older)
        else Ok(r.i)
    }

    function Commit(next: nat): Revision {
      Revision(true, next)
    }

    function Status(): Json {
      if applied then Int(value) else Null
    }
  }

  const NO_REVISION := Revision(false, 0)

  predicate Resets(request: Json) {
    At(request, "reset") == Ok(Bool(true))
  }

  // A request for revision n, well formed up to its domains.
  predicate Carries(request: Json, n: nat, config: Json) {
    && At(request, "revision") == Ok(Int(n)) && At(request, "config") == Ok(config)
    && ("reset" in request.fields ==> request.fields["reset"].Bool?)
  }

  // Without "reset" only an equal or newer revision passes, and with it any does.
  lemma CheckIff(v: Revision, request: Json, n: nat, config: Json)
    requires Carries(request, n, config)
    ensures v.Check(request) == Ok(n) <==> (!v.applied || v.value <= n || Resets(request))
    ensures v.Check(request) != Ok(n) ==> v.Check(request) == Err(Older)
  {}

  // Which requests pass, well formed or not: a revision that is a non-negative integer, a reset that
  // is a boolean if it is there, and nothing older than what was applied unless the reset says so.
  lemma PassesIff(v: Revision, request: Json)
    ensures v.Check(request).Ok? <==>
              && request.Obj? && "revision" in request.fields && request.fields["revision"].Int? && 0 <= request.fields["revision"].i
              && ("reset" in request.fields ==> request.fields["reset"].Bool?)
              && (v.applied && request.fields["revision"].i < v.value ==>
                    "reset" in request.fields && request.fields["reset"] == Bool(true))
    ensures v.Check(request).Ok? ==> v.Check(request).value == request.fields["revision"].i
  {}

  // A revision committed is the one reported, and the same or a newer one passes afterwards.
  lemma CommittedPasses(v: Revision, request: Json, n: nat, later: nat, config: Json)
    requires Carries(request, later, config) && n <= later
    ensures v.Commit(n).Status() == Int(n) && v.Commit(n).Check(request) == Ok(later)
  {}

  // ---------- framing ----------

  const NEWLINE: Byte := 10
  const MAX_COMMAND: nat := 1024 * 1024

  function Joined(chunks: seq<seq<Byte>>): seq<Byte> {
    if chunks == [] then [] else chunks[0] + Joined(chunks[1..])
  }

  function Find(s: seq<Byte>): (end: nat)
    ensures end <= |s| && (forall i :: 0 <= i < end ==> s[i] != NEWLINE) && (end < |s| ==> s[end] == NEWLINE)
  {
    if s == [] || s[0] == NEWLINE then 0 else Find(s[1..]) + 1
  }

  // The line a stream holds: the bytes before its first newline, if that comes early enough.
  function Framed(stream: seq<Byte>): Option<seq<Byte>> {
    var end := Find(stream);
    if end < |stream| && end < MAX_COMMAND then Some(stream[..end]) else None
  }

  lemma FindIsFirst(s: seq<Byte>, end: nat)
    requires end <= |s| && (forall i :: 0 <= i < end ==> s[i] != NEWLINE) && (end < |s| ==> s[end] == NEWLINE)
    ensures Find(s) == end
  {}

  // What follows the newline does not matter.
  lemma LaterBytesDoNotMatter(s: seq<Byte>, more: seq<Byte>)
    requires Find(s) < |s|
    ensures Framed(s + more) == Framed(s)
  {
    var end := Find(s);
    assert (s + more)[..end] == s[..end];
    FindIsFirst(s + more, end);
  }

  lemma {:induction false} JoinedOneMore(chunks: seq<seq<Byte>>, i: nat)
    requires i < |chunks|
    ensures Joined(chunks[..i + 1]) == Joined(chunks[..i]) + chunks[i]
  {
    if i == 0 {
      assert chunks[..1] == [chunks[0]];
      assert chunks[..1][1..] == [];
    } else {
      JoinedOneMore(chunks[1..], i - 1);
      assert chunks[..i + 1][1..] == chunks[1..][..i] && chunks[..i][1..] == chunks[1..][..i - 1];
    }
  }

  lemma Associates(a: seq<Byte>, b: seq<Byte>, c: seq<Byte>)
    ensures a + (b + c) == (a + b) + c
  {}

  lemma {:induction false} JoinedParts(a: seq<seq<Byte>>, b: seq<seq<Byte>>)
    ensures Joined(a + b) == Joined(a) + Joined(b)
  {
    if a == [] {
      assert a + b == b;
    } else {
      JoinedParts(a[1..], b);
      assert (a + b)[0] == a[0] && (a + b)[1..] == a[1..] + b;
      Associates(a[0], Joined(a[1..]), Joined(b));
    }
  }

  // Reads until the newline is there, the buffer is full, or nothing more comes in time. The
  // outcome depends on the bytes only, not on how they were split into reads.
  method ReadLine(chunks: seq<seq<Byte>>) returns (line: Option<seq<Byte>>)
    requires forall i :: 0 <= i < |chunks| ==> 0 < |chunks[i]| <= 2048
    ensures line == Framed(Joined(chunks))
    ensures var all := Joined(chunks);
            match line
            case Some(l) =>
              && |l| < |all| && |l| < 1048576 && l == all[..|l|] && all[|l|] == 10 && forall i :: 0 <= i < |l| ==> l[i] != 10
            case None => forall i :: 0 <= i < |all| && i < 1048576 ==> all[i] != 10
  {
    var buffer, i := [], 0;
    while i < |chunks| && |buffer| < MAX_COMMAND
      invariant i <= |chunks| && buffer == Joined(chunks[..i])
      invariant Find(buffer) < MAX_COMMAND ==> Find(buffer) == |buffer|
    {
      JoinedOneMore(chunks, i);
      buffer := buffer + chunks[i];
      i := i + 1;
      var end := Find(buffer);
      if end < |buffer| && end < MAX_COMMAND {
        JoinedParts(chunks[..i], chunks[i..]);
        assert chunks[..i] + chunks[i..] == chunks;
        LaterBytesDoNotMatter(buffer, Joined(chunks[i..]));
        return Some(buffer[..end]);
      }
    }
    JoinedParts(chunks[..i], chunks[i..]);
    assert chunks[..i] + chunks[i..] == chunks;
    NoEarlyNewline(buffer, Joined(chunks[i..]), i == |chunks|);
    return None;
  }

  lemma FindNotBefore(s: seq<Byte>, k: nat)
    requires k <= |s| && forall i :: 0 <= i < k ==> s[i] != NEWLINE
    ensures k <= Find(s)
  {}

  // A buffer without an early newline, either complete or full, holds no line.
  lemma NoEarlyNewline(buffer: seq<Byte>, more: seq<Byte>, complete: bool)
    requires Find(buffer) < MAX_COMMAND ==> Find(buffer) == |buffer|
    requires if complete then more == [] else MAX_COMMAND <= |buffer|
    ensures Framed(buffer + more) == None
  {
    if complete {
      assert buffer + more == buffer;
    } else {
      var end := Find(buffer);
      forall i | 0 <= i < MAX_COMMAND
        ensures (buffer + more)[i] != NEWLINE
      {
        assert buffer[i] != NEWLINE;
      }
      FindNotBefore(buffer + more, MAX_COMMAND);
    }
  }
}
