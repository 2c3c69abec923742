/**
 * The remediation dispatcher: a batch of compliance-check messages is
 * handled one record at a time. A record leads to an automation call only
 * when its status is exactly "FAIL", its control id has a playbook, the
 * playbook's role variable is set in the environment and the target is an
 * S3 bucket ARN. Every error is caught per record, so the batch always runs
 * to its end and the handler always acknowledges.
 *
 * JSON decoding is taken as given (a record carries its decoded payload),
 * the process environment is a map, and the automation service is an
 * object that logs each call it receives and answers it according to a
 * behaviour chosen by the environment.
 */
module PraetorianGuard {

  datatype Option<T> = None | Some(value: T)

  // -----------------------------------------------------------------------
  // Inputs
  // -----------------------------------------------------------------------

  /** The value `payload.get(key)` yields: `None` (key absent or JSON null),
      a string, or some other JSON value, described by the two traits of it
      that the handler's code can trip over. */
  datatype Field =
    | Missing
    | Str(s: string)
    | NonString(truthy: bool, hashable: bool)

  /** The decoded message body. `NotObject` is a well-formed JSON value that
      is not an object, on which `.get` raises. */
  datatype Payload =
    | Malformed
    | NotObject
    | Object(controlId: Field, targetId: Field, status: Field)

  /** One queue record; `body` is `None` when the record has no body. */
  datatype Message = Message(body: Option<Payload>)

  /** The trigger event; `records` is `None` when it has no record list. */
  datatype Event = Event(records: Option<seq<Message>>)

  /** A playbook: the automation document and the name of the environment
      variable holding the role it must run under. */
  datatype Playbook = Playbook(documentName: string, roleEnvVar: string)

  // -----------------------------------------------------------------------
  // Outputs
  // -----------------------------------------------------------------------

  datatype Tag = Tag(key: string, value: string)

  /** One automation-execution request. */
  datatype Call = Call(documentName: string, parameters: map<string, seq<string>>, tags: seq<Tag>)

  /** The service's answer: an execution id, or an error (a raised
      exception, or a reply without an execution id). */
  datatype Response = Started(executionId: string) | ServiceError

  /** What became of one record. */
  datatype Outcome =
    | ParseFailed
    | Skipped
    | NoPlaybook
    | NoRole
    | ParamError
    | Dispatched(executionId: string)
    | Failed

  /** The decision the gate chain takes on a record before any call. */
  datatype Step = Stop(outcome: Outcome) | Issue(call: Call)

  datatype HandlerResult = HandlerResult(statusCode: int, body: string)

  // -----------------------------------------------------------------------
  // Configuration
  // -----------------------------------------------------------------------

  const RemediationPlaybookMap: map<string, Playbook> :=
    map["NIST-800-53-CM-6" := Playbook("PraetoriumNexus-CM-6-S3-Public-Access-Fix", "CM6_S3_EXECUTION_ROLE_ARN")]

  const FailStatus: string := "FAIL"
  const S3ArnPrefix: string := "arn:aws:s3:::"
  const ArnSeparator: string := ":::"
  const TriggerSource: string := "Praetorian_Guard_Lambda"
  const Acknowledgement: HandlerResult := HandlerResult(200, "Processing complete.")

  // -----------------------------------------------------------------------
  // Splitting a target ARN
  // -----------------------------------------------------------------------

  predicate StartsWith(s: string, prefix: string)
  {
    |prefix| <= |s| && s[..|prefix|] == prefix
  }

  /** `sep` occurs in `s` at position `i`. */
  predicate SepAt(s: string, i: nat, sep: string)
  {
    i + |sep| <= |s| && s[i..i + |sep|] == sep
  }

  predicate FreeOf(s: string, sep: string)
  {
    forall i: nat :: i < |s| ==> !SepAt(s, i, sep)
  }

  /** `s.split(sep)`: scans left to right and cuts at each occurrence of
      `sep` that does not overlap an earlier cut. */
  function Split(s: string, sep: string): (parts: seq<string>)
    requires sep != []
    ensures |parts| >= 1
    decreases |s|
  {
    if s == [] then [[]]
    else if SepAt(s, 0, sep) then [[]] + Split(s[|sep|..], sep)
    else
      var rest := Split(s[1..], sep);
      [[s[0]] + rest[0]] + rest[1..]
  }

  /** `sep.join(parts)`. */
  function Join(parts: seq<string>, sep: string): string
    requires |parts| >= 1
    decreases |parts|
  {
    if |parts| == 1 then parts[0] else parts[0] + sep + Join(parts[1..], sep)
  }

  function Last(parts: seq<string>): string
    requires |parts| >= 1
  {
    parts[|parts| - 1]
  }

  /** `target_id.split(":::")[-1]`. */
  function BucketName(target: string): string
  {
    Last(Split(target, ArnSeparator))
  }

  /** The parameters derived from an accepted target. */
  function TargetParameters(target: string): map<string, seq<string>>
  {
    map["BucketName" := [BucketName(target)]]
  }

  /** Joining after an empty first part starts with the separator. */
  lemma JoinEmptyFirst(rest: seq<string>, sep: string)
    requires |rest| >= 1
    ensures Join([[]] + rest, sep) == sep + Join(rest, sep)
  {
    var parts := [[]] + rest;
    assert parts[1..] == rest;
    assert Join(parts, sep) == [] + sep + Join(rest, sep);
  }

  /** Joining after a character is put in front of the first part puts that
      character in front of the whole. */
  lemma JoinExtendFirst(c: char, rest: seq<string>, sep: string)
    requires |rest| >= 1
    ensures Join([[c] + rest[0]] + rest[1..], sep) == [c] + Join(rest, sep)
  {
    var parts := [[c] + rest[0]] + rest[1..];
    if |rest| > 1 {
      assert parts[1..] == rest[1..];
      calc {
        Join(parts, sep);
        ([c] + rest[0]) + sep + Join(rest[1..], sep);
        [c] + (rest[0] + sep + Join(rest[1..], sep));
      }
    }
  }

  /** Joining the parts with the separator gives back the split string. */
  lemma {:induction false} SplitJoin(s: string, sep: string)
    requires sep != []
    ensures Join(Split(s, sep), sep) == s
    decreases |s|
  {
    if s == [] {
    } else if SepAt(s, 0, sep) {
      var rest := Split(s[|sep|..], sep);
      assert Split(s, sep) == [[]] + rest;
      SplitJoin(s[|sep|..], sep);
      JoinEmptyFirst(rest, sep);
      assert sep + s[|sep|..] == s;
    } else {
      var rest := Split(s[1..], sep);
      assert Split(s, sep) == [[s[0]] + rest[0]] + rest[1..];
      SplitJoin(s[1..], sep);
      JoinExtendFirst(s[0], rest, sep);
      assert [s[0]] + s[1..] == s;
    }
  }

  /** The first part is a prefix of the string. */
  lemma {:induction false} SplitHeadPrefix(s: string, sep: string)
    requires sep != []
    ensures |Split(s, sep)[0]| <= |s| && s[..|Split(s, sep)[0]|] == Split(s, sep)[0]
    decreases |s|
  {
    if s != [] && !SepAt(s, 0, sep) {
      SplitHeadPrefix(s[1..], sep);
    }
  }

  /** A character that does not start the separator in `s`, put in front of
      a separator-free prefix of the rest of `s`, leaves it separator-free. */
  lemma FreeOfExtended(s: string, part: string, sep: string)
    requires s != [] && !SepAt(s, 0, sep)
    requires |part| <= |s| - 1 && s[1..][..|part|] == part
    requires FreeOf(part, sep)
    ensures FreeOf([s[0]] + part, sep)
  {
    var head := [s[0]] + part;
    forall i: nat | i < |head|
      ensures !SepAt(head, i, sep)
    {
      if i == 0 {
        if |sep| <= |head| {
          assert head == s[..|head|];
          assert s[..|sep|] == head[..|sep|];
        }
      } else {
        assert !SepAt(part, i - 1, sep);
        if i + |sep| <= |head| {
          assert head[i..i + |sep|] == part[i - 1..i - 1 + |sep|];
        }
      }
    }
  }

  /** No part contains the separator. */
  lemma {:induction false} SplitPartsFree(s: string, sep: string)
    requires sep != []
    ensures forall k :: 0 <= k < |Split(s, sep)| ==> FreeOf(Split(s, sep)[k], sep)
    decreases |s|
  {
    if s == [] {
    } else if SepAt(s, 0, sep) {
      var rest := Split(s[|sep|..], sep);
      SplitPartsFree(s[|sep|..], sep);
      var parts := [[]] + rest;
      assert Split(s, sep) == parts;
      forall k | 0 <= k < |parts|
        ensures FreeOf(parts[k], sep)
      {
        if k > 0 {
          assert parts[k] == rest[k - 1];
        }
      }
    } else {
      var rest := Split(s[1..], sep);
      SplitPartsFree(s[1..], sep);
      SplitHeadPrefix(s[1..], sep);
      FreeOfExtended(s, rest[0], sep);
      var parts := [[s[0]] + rest[0]] + rest[1..];
      assert Split(s, sep) == parts;
      forall k | 0 <= k < |parts|
        ensures FreeOf(parts[k], sep)
      {
        if k > 0 {
          assert parts[k] == rest[k];
        }
      }
    }
  }

  /** Python's rule for `split`, stated on a candidate list of parts: the
      first part runs up to the leftmost occurrence of the separator (no
      occurrence starts inside it), and the remaining parts are the split of
      what follows that occurrence; with no occurrence at all the first part
      is the whole string. */
  ghost predicate CutsFirst(s: string, sep: string, parts: seq<string>)
    requires sep != []
  {
    && |parts| >= 1
    && |parts[0]| <= |s|
    && (forall i: nat :: i < |parts[0]| ==> !SepAt(s, i, sep))
    && (|parts| == 1 ==> parts[0] == s)
    && (|parts| > 1 ==>
          && SepAt(s, |parts[0]|, sep)
          && parts[1..] == Split(s[|parts[0]| + |sep|..], sep))
  }

  /** `Split` cuts at the leftmost occurrence of the separator, and the cuts
      never overlap. */
  lemma {:induction false} SplitFirstCut(s: string, sep: string)
    requires sep != []
    ensures CutsFirst(s, sep, Split(s, sep))
    decreases |s|
  {
    if s == [] {
      assert Split(s, sep) == [[]];
    } else if SepAt(s, 0, sep) {
      SplitSepStep(s, sep);
    } else {
      SplitFirstCut(s[1..], sep);
      FirstCutPlain(s, sep);
    }
  }

  lemma FirstCutPlain(s: string, sep: string)
    requires sep != [] && s != [] && !SepAt(s, 0, sep)
    requires CutsFirst(s[1..], sep, Split(s[1..], sep))
    ensures CutsFirst(s, sep, Split(s, sep))
  {
    var rest, parts := Split(s[1..], sep), Split(s, sep);
    var q := rest[0];
    SplitPlainStep(s, sep);
    FirstCutStep(s, sep, q, |rest|);
    assert parts[0] == [s[0]] + q;
    if |rest| > 1 {
      var after := s[1..][|q| + |sep|..];
      assert after == s[|parts[0]| + |sep|..];
      assert parts[1..] == Split(after, sep);
    }
  }

  /** The step of `SplitFirstCut` on the first part `q` of the rest of `s`
      (of `count` parts), which becomes `[s[0]] + q` in `s`. */
  lemma FirstCutStep(s: string, sep: string, q: string, count: nat)
    requires s != [] && !SepAt(s, 0, sep)
    requires |q| <= |s| - 1
    requires forall i: nat :: i < |q| ==> !SepAt(s[1..], i, sep)
    requires count == 1 ==> q == s[1..]
    requires count > 1 ==> SepAt(s[1..], |q|, sep)
    ensures forall i: nat :: i < |q| + 1 ==> !SepAt(s, i, sep)
    ensures count == 1 ==> [s[0]] + q == s
    ensures count > 1 ==>
      && SepAt(s, |q| + 1, sep)
      && s[1..][|q| + |sep|..] == s[|q| + 1 + |sep|..]
  {
    NoCutBefore(s, q, sep);
    if count == 1 {
      assert [s[0]] + s[1..] == s;
    } else if count > 1 {
      CutAfter(s, |q|, sep);
    }
  }

  /** One step of `Split` past a character that does not start the
      separator: the character joins the first part of the rest. */
  lemma SplitPlainStep(s: string, sep: string)
    requires sep != [] && s != [] && !SepAt(s, 0, sep)
    ensures var rest := Split(s[1..], sep);
      && Split(s, sep)[0] == [s[0]] + rest[0]
      && Split(s, sep)[1..] == rest[1..]
      && |Split(s, sep)| == |rest|
  {
    var rest := Split(s[1..], sep);
    assert Split(s, sep) == [[s[0]] + rest[0]] + rest[1..];
  }

  /** No separator starts in `s` before `|q| + 1` when none starts at 0 and
      none starts in the rest before `|q|`. */
  lemma NoCutBefore(s: string, q: string, sep: string)
    requires s != [] && !SepAt(s, 0, sep) && |q| <= |s| - 1
    requires forall i: nat :: i < |q| ==> !SepAt(s[1..], i, sep)
    ensures forall i: nat :: i < |q| + 1 ==> !SepAt(s, i, sep)
  {
    forall i: nat | 0 < i < |q| + 1
      ensures !SepAt(s, i, sep)
    {
      SepAtShift(s, i - 1, sep);
    }
  }

  /** A separator at `n` in the rest of `s` is one at `n + 1` in `s`, with
      the same text after it. */
  lemma CutAfter(s: string, n: nat, sep: string)
    requires s != [] && SepAt(s[1..], n, sep)
    ensures SepAt(s, n + 1, sep)
    ensures s[1..][n + |sep|..] == s[n + 1 + |sep|..]
  {
    SepAtShift(s, n, sep);
  }

  /** A string free of the separator splits into itself. */
  lemma {:induction false} SplitFree(s: string, sep: string)
    requires sep != [] && FreeOf(s, sep)
    ensures Split(s, sep) == [s]
    decreases |s|
  {
    if s != [] {
      assert !SepAt(s, 0, sep);
      forall i: nat | i < |s[1..]|
        ensures !SepAt(s[1..], i, sep)
      {
        assert !SepAt(s, i + 1, sep);
        if i + |sep| <= |s[1..]| {
          assert s[1..][i..i + |sep|] == s[i + 1..i + 1 + |sep|];
        }
      }
      SplitFree(s[1..], sep);
      assert s == [s[0]] + s[1..];
    }
  }

  lemma SepAtShift(t: string, i: nat, sep: string)
    requires t != []
    ensures SepAt(t[1..], i, sep) <==> SepAt(t, i + 1, sep)
  {
    if i + 1 + |sep| <= |t| {
      assert t[1..][i..i + |sep|] == t[i + 1..i + 1 + |sep|];
    }
  }

  /** Splitting skips over a prefix in which no separator starts. */
  lemma {:induction false} SplitPlainPrefix(p: string, s: string, sep: string)
    requires sep != []
    requires forall i: nat :: i < |p| ==> !SepAt(p + s, i, sep)
    ensures Split(p + s, sep)[0] == p + Split(s, sep)[0]
    ensures Split(p + s, sep)[1..] == Split(s, sep)[1..]
    decreases |p|
  {
    var t := p + s;
    if p == [] {
      assert t == s;
    } else {
      assert t[1..] == p[1..] + s;
      forall i: nat | i < |p[1..]|
        ensures !SepAt(p[1..] + s, i, sep)
      {
        SepAtShift(t, i, sep);
      }
      SplitPlainPrefix(p[1..], s, sep);
      var r := Split(t[1..], sep);
      assert !SepAt(t, 0, sep);
      var parts := [[t[0]] + r[0]] + r[1..];
      assert Split(t, sep) == parts;
      assert parts[1..] == r[1..];
      calc {
        parts[0];
        [t[0]] + r[0];
        [p[0]] + (p[1..] + Split(s, sep)[0]);
        ([p[0]] + p[1..]) + Split(s, sep)[0];
        { assert [p[0]] + p[1..] == p; }
        p + Split(s, sep)[0];
      }
    }
  }

  /** The bucket named by an S3 ARN is the last `:::`-part of what follows
      the prefix, so it is that whole remainder when the remainder holds no
      `:::`. */
  lemma BucketNameOfS3Arn(rest: string)
    ensures BucketName(S3ArnPrefix + rest) == Last(Split(rest, ArnSeparator))
    ensures FreeOf(rest, ArnSeparator) ==> BucketName(S3ArnPrefix + rest) == rest
  {
    var head, u := "arn:aws:s3", ArnSeparator + rest;
    ArnHeadPlain(rest);
    SplitPlainPrefix(head, u, ArnSeparator);
    SplitSepStep(u, ArnSeparator);
    assert u[|ArnSeparator|..] == rest;
    LastOfTail(Split(head + u, ArnSeparator));
    if FreeOf(rest, ArnSeparator) {
      SplitFree(rest, ArnSeparator);
    }
  }

  /** No `:::` starts inside "arn:aws:s3" at the front of an S3 ARN. */
  lemma ArnHeadPlain(rest: string)
    ensures S3ArnPrefix + rest == "arn:aws:s3" + (ArnSeparator + rest)
    ensures forall i: nat :: i < |"arn:aws:s3"| ==> !SepAt("arn:aws:s3" + (ArnSeparator + rest), i, ArnSeparator)
  {
    var t := S3ArnPrefix + rest;
    assert t == "arn:aws:s3" + (ArnSeparator + rest);
    forall i: nat | i < |"arn:aws:s3"|
      ensures !SepAt(t, i, ArnSeparator)
    {
      assert t[i] == S3ArnPrefix[i] && t[i + 1] == S3ArnPrefix[i + 1] && t[i + 2] == S3ArnPrefix[i + 2];
    }
  }

  /** One step of `Split` at an occurrence of the separator: an empty part,
      then the split of what follows. */
  lemma SplitSepStep(s: string, sep: string)
    requires sep != [] && SepAt(s, 0, sep)
    ensures Split(s, sep)[0] == []
    ensures Split(s, sep)[1..] == Split(s[|sep|..], sep)
  {
    assert Split(s, sep) == [[]] + Split(s[|sep|..], sep);
  }

  lemma LastOfTail(parts: seq<string>)
    requires |parts| > 1
    ensures Last(parts) == Last(parts[1..])
  {
  }

  /** A joined string ends with the last part. */
  lemma {:induction false} JoinEndsWithLast(parts: seq<string>, sep: string)
    requires |parts| >= 1
    ensures |Last(parts)| <= |Join(parts, sep)|
    ensures Join(parts, sep)[|Join(parts, sep)| - |Last(parts)|..] == Last(parts)
    decreases |parts|
  {
    if |parts| > 1 {
      JoinEndsWithLast(parts[1..], sep);
      var front, back := parts[0] + sep, Join(parts[1..], sep);
      assert Join(parts, sep) == front + back;
      assert Last(parts) == Last(parts[1..]);
      assert (front + back)[|front + back| - |Last(parts)|..] == back[|back| - |Last(parts)|..];
    }
  }

  /** The bucket name is a suffix of the target and holds no `:::`. */
  lemma BucketNameSuffix(target: string)
    ensures |BucketName(target)| <= |target|
    ensures target[|target| - |BucketName(target)|..] == BucketName(target)
    ensures FreeOf(BucketName(target), ArnSeparator)
  {
    SplitJoin(target, ArnSeparator);
    JoinEndsWithLast(Split(target, ArnSeparator), ArnSeparator);
    SplitPartsFree(target, ArnSeparator);
  }

  // -----------------------------------------------------------------------
  // The gate chain of one record
  // -----------------------------------------------------------------------

  /** A record without a body is read as the empty object. */
  function Decoded(m: Message): Payload
  {
    match m.body
    case None => Object(Missing, Missing, Missing)
    case Some(p) => p
  }

  /** `os.environ.get(name)`. */
  function EnvGet(env: map<string, string>, name: string): Option<string>
  {
    if name in env then Some(env[name]) else None
  }

  /** The call the handler builds for an accepted record. */
  function MakeCall(playbook: Playbook, role: string, controlId: string, target: string): Call
  {
    Call(
      playbook.documentName,
      TargetParameters(target) + map["AutomationAssumeRole" := [role]],
      [Tag("TriggeredBy", TriggerSource), Tag("ControlID", controlId), Tag("TargetID", target)])
  }

  /** The gates of one record, in the order the handler applies them, up to
      the automation call. An exception raised on the way is `Failed`. */
  function Plan(m: Message, playbooks: map<string, Playbook>, env: map<string, string>): Step
  {
    match Decoded(m)
    case Malformed => Stop(ParseFailed)
    case NotObject => Stop(Failed)
    case Object(controlId, targetId, status) =>
      if status != Str(FailStatus) then Stop(Skipped)
      else LookUpPlaybook(controlId, targetId, playbooks, env)
  }

  /** The playbook lookup; a control id that cannot be a dictionary key
      raises. */
  function LookUpPlaybook(
    controlId: Field, targetId: Field, playbooks: map<string, Playbook>, env: map<string, string>): Step
  {
    match controlId
    case Missing => Stop(NoPlaybook)
    case NonString(_, hashable) => if hashable then Stop(NoPlaybook) else Stop(Failed)
    case Str(cid) =>
      if cid !in playbooks then Stop(NoPlaybook)
      else LookUpRole(cid, playbooks[cid], targetId, env)
  }

  /** The role lookup: an unset or empty variable stops the record. */
  function LookUpRole(cid: string, playbook: Playbook, targetId: Field, env: map<string, string>): Step
  {
    var role := EnvGet(env, playbook.roleEnvVar);
    if role.None? || role.value == "" then Stop(NoRole)
    else ParseTarget(cid, playbook, role.value, targetId)
  }

  /** The parameter parsing: only a string target with the S3 ARN prefix is
      accepted; a truthy non-string target raises on `startswith`. */
  function ParseTarget(cid: string, playbook: Playbook, role: string, targetId: Field): Step
  {
    match targetId
    case Missing => Stop(ParamError)
    case NonString(truthy, _) => if truthy then Stop(Failed) else Stop(ParamError)
    case Str(target) =>
      if target != "" && StartsWith(target, S3ArnPrefix) then Issue(MakeCall(playbook, role, cid, target))
      else Stop(ParamError)
  }

  /** What a record's step becomes when the service answers the call it
      issues, which sits at log position `position`, with `behaviour`. */
  function Resolve(step: Step, behaviour: (Call, nat) -> Response, position: nat): Outcome
  {
    match step
    case Stop(o) => o
    case Issue(call) =>
      match behaviour(call, position)
      case Started(id) => Dispatched(id)
      case ServiceError => Failed
  }

  function CallsOf(step: Step): seq<Call>
  {
    if step.Issue? then [step.call] else []
  }

  /** The call a well-behaved dispatcher may issue: it names a playbook's
      document, runs under that playbook's own non-empty role, targets the
      bucket of an S3 ARN and is tagged with its origin. */
  ghost predicate Authorised(call: Call, playbooks: map<string, Playbook>, env: map<string, string>)
  {
    && |call.tags| == 3
    && call.tags[0] == Tag("TriggeredBy", TriggerSource)
    && call.tags[1].key == "ControlID"
    && call.tags[2].key == "TargetID"
    && var cid, target := call.tags[1].value, call.tags[2].value;
    && cid in playbooks
    && call.documentName == playbooks[cid].documentName
    && playbooks[cid].roleEnvVar in env
    && env[playbooks[cid].roleEnvVar] != ""
    && StartsWith(target, S3ArnPrefix)
    && call.parameters == map[
         "BucketName" := [BucketName(target)],
         "AutomationAssumeRole" := [env[playbooks[cid].roleEnvVar]]]
  }

  // -----------------------------------------------------------------------
  // The batch
  // -----------------------------------------------------------------------

  function Records(event: Event): seq<Message>
  {
    match event.records
    case None => []
    case Some(rs) => rs
  }

  /** The gate chain's decision on each record of a batch. */
  function Steps(records: seq<Message>, playbooks: map<string, Playbook>, env: map<string, string>): seq<Step>
  {
    seq(|records|, i requires 0 <= i < |records| => Plan(records[i], playbooks, env))
  }

  /** The calls a batch issues, in record order. */
  function CallsFor(steps: seq<Step>): seq<Call>
    decreases |steps|
  {
    if steps == [] then []
    else
      var n := |steps| - 1;
      CallsFor(steps[..n]) + CallsOf(steps[n])
  }

  /** The outcome of every record of a batch, when the service answers the
      call at log position `p` with `behaviour(call, p)` and `base` calls
      were logged before the batch. */
  function OutcomesFor(steps: seq<Step>, behaviour: (Call, nat) -> Response, base: nat): (outcomes: seq<Outcome>)
    ensures |outcomes| == |steps|
    decreases |steps|
  {
    if steps == [] then []
    else
      var n := |steps| - 1;
      OutcomesFor(steps[..n], behaviour, base) + [Resolve(steps[n], behaviour, base + |CallsFor(steps[..n])|)]
  }

  /** The handler's loop step for the log: if the log holds the calls of the
      first `i` records and record `i` then adds its own, it holds those of
      the first `i + 1` records. */
  lemma LogAdvance(steps: seq<Step>, i: nat, start: seq<Call>, before: seq<Call>, after: seq<Call>)
    requires i < |steps|
    requires before == start + CallsFor(steps[..i])
    requires after == before + CallsOf(steps[i])
    ensures after == start + CallsFor(steps[..i + 1])
  {
    assert steps[..i + 1][..i] == steps[..i];
  }

  /** The handler's loop step for the outcomes, where `position` is the log
      length once the first `i` records are handled. */
  lemma OutcomesAdvance(steps: seq<Step>, i: nat, behaviour: (Call, nat) -> Response, base: nat,
                        position: nat, outcomes: seq<Outcome>, outcome: Outcome)
    requires i < |steps|
    requires position == base + |CallsFor(steps[..i])|
    requires outcomes == OutcomesFor(steps[..i], behaviour, base)
    requires outcome == Resolve(steps[i], behaviour, position)
    ensures outcomes + [outcome] == OutcomesFor(steps[..i + 1], behaviour, base)
  {
    assert steps[..i + 1][..i] == steps[..i];
  }

  // -----------------------------------------------------------------------
  // The automation service and the handler
  // -----------------------------------------------------------------------

  /** The automation-execution service. It records every request it is sent;
      its answer to the request at log position `p` is `behaviour(call, p)`,
      which stands for whatever the real service does. */
  class AutomationService {
    var log: seq<Call>
    const behaviour: (Call, nat) -> Response

    constructor (behaviour: (Call, nat) -> Response)
      ensures this.behaviour == behaviour
      ensures log == []
    {
      this.behaviour := behaviour;
      log := [];
    }

    method StartAutomationExecution(call: Call) returns (response: Response)
      modifies this
      ensures log == old(log) + [call]
      ensures response == behaviour(call, |old(log)|)
    {
      response := behaviour(call, |log|);
      log := log + [call];
    }
  }

  /** The body of the handler's `try` for one record: each gate that fails
      returns early, as the source's `continue` does. */
  method HandleRecord(
    m: Message, playbooks: map<string, Playbook>, env: map<string, string>, ssm: AutomationService)
    returns (outcome: Outcome)
    modifies ssm
    ensures ssm.log == old(ssm.log) + CallsOf(Plan(m, playbooks, env))
    ensures var step := Plan(m, playbooks, env);
      outcome == Resolve(step, ssm.behaviour, |old(ssm.log)|)
  {
    var payload := Decoded(m);
    if payload.Malformed? {
      return ParseFailed;
    }
    if payload.NotObject? {
      return Failed;
    }
    var controlId, targetId, status := payload.controlId, payload.targetId, payload.status;

    if status != Str(FailStatus) {
      return Skipped;
    }

    if controlId.NonString? && !controlId.hashable {
      return Failed;
    }
    if !controlId.Str? || controlId.s !in playbooks {
      return NoPlaybook;
    }
    var cid := controlId.s;
    var playbook := playbooks[cid];
    var role := EnvGet(env, playbook.roleEnvVar);
    if role.None? || role.value == "" {
      return NoRole;
    }

    if targetId.NonString? && targetId.truthy {
      return Failed;
    }
    if !(targetId.Str? && targetId.s != "" && StartsWith(targetId.s, S3ArnPrefix)) {
      return ParamError;
    }
    var target := targetId.s;

    var response := ssm.StartAutomationExecution(MakeCall(playbook, role.value, cid, target));
    match response {
      case Started(id) => outcome := Dispatched(id);
      case ServiceError => outcome := Failed;
    }
  }

  /** The handler: every record in order, each isolated from the others, and
      always the same acknowledgement. The per-record outcomes, which the
      source only logs, are returned as `outcomes`. */
  method LambdaHandler(
    event: Event, playbooks: map<string, Playbook>, env: map<string, string>, ssm: AutomationService)
    returns (result: HandlerResult, outcomes: seq<Outcome>)
    modifies ssm
    ensures ssm.log == old(ssm.log) + CallsFor(Steps(Records(event), playbooks, env))
    ensures outcomes == OutcomesFor(Steps(Records(event), playbooks, env), ssm.behaviour, |old(ssm.log)|)
    ensures result == Acknowledgement
  {
    var records := Records(event);
    ghost var steps := Steps(records, playbooks, env);
    outcomes := [];
    var i := 0;
    while i < |records|
      invariant 0 <= i <= |records|
      invariant ssm.log == old(ssm.log) + CallsFor(steps[..i])
      invariant outcomes == OutcomesFor(steps[..i], ssm.behaviour, |old(ssm.log)|)
    {
      ghost var before := ssm.log;
      var outcome := HandleRecord(records[i], playbooks, env, ssm);
      LogAdvance(steps, i, old(ssm.log), before, ssm.log);
      OutcomesAdvance(steps, i, ssm.behaviour, |old(ssm.log)|, |before|, outcomes, outcome);
      outcomes := outcomes + [outcome];
      i := i + 1;
    }
    assert steps[..|records|] == steps;
    result := Acknowledgement;
  }

  // -----------------------------------------------------------------------
  // The gates, one by one
  // -----------------------------------------------------------------------

  /** The record is a decoded object whose status is exactly "FAIL". */
  ghost predicate IsFail(m: Message)
  {
    Decoded(m).Object? && Decoded(m).status == Str(FailStatus)
  }

  /** A record whose status is not exactly "FAIL" (a record without a body
      included) is skipped without a call. */
  lemma SkippedUnlessFail(m: Message, playbooks: map<string, Playbook>, env: map<string, string>)
    requires Decoded(m).Object? && !IsFail(m)
    ensures Plan(m, playbooks, env) == Stop(Skipped)
  {
  }

  lemma MissingBodySkipped(m: Message, playbooks: map<string, Playbook>, env: map<string, string>)
    requires m.body.None?
    ensures Plan(m, playbooks, env) == Stop(Skipped)
  {
  }

  /** A body that is not valid JSON is a decode error, and no call. */
  lemma MalformedParseFailed(m: Message, playbooks: map<string, Playbook>, env: map<string, string>)
    requires m.body == Some(Malformed)
    ensures Plan(m, playbooks, env) == Stop(ParseFailed)
  {
  }

  /** A failing record whose control id is absent, not a string, or has no
      playbook gets no call. */
  lemma NoCallWithoutPlaybook(m: Message, playbooks: map<string, Playbook>, env: map<string, string>)
    requires IsFail(m)
    requires !Decoded(m).controlId.Str? || Decoded(m).controlId.s !in playbooks
    ensures Plan(m, playbooks, env) == Stop(NoPlaybook) || Plan(m, playbooks, env) == Stop(Failed)
    ensures Decoded(m).controlId.Str? || Decoded(m).controlId.Missing? ==> Plan(m, playbooks, env) == Stop(NoPlaybook)
    ensures Decoded(m).controlId.NonString? ==>
      Plan(m, playbooks, env) == if Decoded(m).controlId.hashable then Stop(NoPlaybook) else Stop(Failed)
  {
  }

  /** A failing, mapped record whose playbook role variable is unset or
      empty gets no call. */
  lemma NoCallWithoutRole(m: Message, playbooks: map<string, Playbook>, env: map<string, string>)
    requires IsFail(m) && Decoded(m).controlId.Str? && Decoded(m).controlId.s in playbooks
    requires EnvGet(env, playbooks[Decoded(m).controlId.s].roleEnvVar) in {None, Some("")}
    ensures Plan(m, playbooks, env) == Stop(NoRole)
  {
  }

  /** A record that passes the earlier gates but whose target is missing,
      empty, or not an S3 ARN gets no call. */
  lemma NoCallWithoutS3Target(m: Message, playbooks: map<string, Playbook>, env: map<string, string>, cid: string)
    requires IsFail(m) && Decoded(m).controlId == Str(cid) && cid in playbooks
    requires EnvGet(env, playbooks[cid].roleEnvVar) !in {None, Some("")}
    requires Decoded(m).targetId.Missing? || (Decoded(m).targetId.Str? && !StartsWith(Decoded(m).targetId.s, S3ArnPrefix))
    ensures Plan(m, playbooks, env) == Stop(ParamError)
  {
  }

  /** All gates passed: the call has exactly these contents. */
  lemma DispatchedCall(
    m: Message, playbooks: map<string, Playbook>, env: map<string, string>, cid: string, target: string, role: string)
    requires Decoded(m) == Object(Str(cid), Str(target), Str(FailStatus))
    requires cid in playbooks && EnvGet(env, playbooks[cid].roleEnvVar) == Some(role) && role != ""
    requires StartsWith(target, S3ArnPrefix)
    ensures Plan(m, playbooks, env) == Issue(Call(
      playbooks[cid].documentName,
      map["BucketName" := [BucketName(target)], "AutomationAssumeRole" := [role]],
      [Tag("TriggeredBy", "Praetorian_Guard_Lambda"), Tag("ControlID", cid), Tag("TargetID", target)]))
  {
    assert target != "";
  }

  /** A record leads to a call exactly when it is a failing object whose
      string control id has a playbook whose role is set and non-empty, and
      whose target is a string starting with the S3 ARN prefix; the call
      is then authorised and carries the record's ids in its tags. */
  lemma IssueIff(m: Message, playbooks: map<string, Playbook>, env: map<string, string>)
    ensures Plan(m, playbooks, env).Issue? <==>
      && IsFail(m)
      && Decoded(m).controlId.Str?
      && Decoded(m).controlId.s in playbooks
      && EnvGet(env, playbooks[Decoded(m).controlId.s].roleEnvVar) !in {None, Some("")}
      && Decoded(m).targetId.Str?
      && StartsWith(Decoded(m).targetId.s, S3ArnPrefix)
    ensures Plan(m, playbooks, env).Issue? ==>
      && Authorised(Plan(m, playbooks, env).call, playbooks, env)
      && Decoded(m).controlId == Str(Plan(m, playbooks, env).call.tags[1].value)
      && Decoded(m).targetId == Str(Plan(m, playbooks, env).call.tags[2].value)
  {
    if Plan(m, playbooks, env).Issue? {
      var cid := Decoded(m).controlId.s;
      var target := Decoded(m).targetId.s;
      var role := env[playbooks[cid].roleEnvVar];
      DispatchedCall(m, playbooks, env, cid, target, role);
    }
  }

  // -----------------------------------------------------------------------
  // The batch
  // -----------------------------------------------------------------------

  /** Handling two batches one after the other issues the same calls as
      handling them as one batch: no record affects another's call. */
  lemma {:induction false} CallsForAppend(a: seq<Step>, b: seq<Step>)
    ensures CallsFor(a + b) == CallsFor(a) + CallsFor(b)
    decreases |b|
  {
    if b == [] {
      assert a + b == a;
    } else {
      var n := |b| - 1;
      assert (a + b)[..|a + b| - 1] == a + b[..n];
      assert (a + b)[|a + b| - 1] == b[n];
      CallsForAppend(a, b[..n]);
    }
  }

  /** The same, stated on records. */
  lemma BatchSplit(a: seq<Message>, b: seq<Message>, playbooks: map<string, Playbook>, env: map<string, string>)
    ensures CallsFor(Steps(a + b, playbooks, env))
      == CallsFor(Steps(a, playbooks, env)) + CallsFor(Steps(b, playbooks, env))
  {
    var sa, sb := Steps(a, playbooks, env), Steps(b, playbooks, env);
    forall i | 0 <= i < |a + b|
      ensures Steps(a + b, playbooks, env)[i] == (sa + sb)[i]
    {
      if i < |a| {
        assert (a + b)[i] == a[i];
      } else {
        assert (a + b)[i] == b[i - |a|];
      }
    }
    assert Steps(a + b, playbooks, env) == sa + sb;
    CallsForAppend(Steps(a, playbooks, env), Steps(b, playbooks, env));
  }

  /** At most one call per record. */
  lemma {:induction false} AtMostOneCallPerRecord(steps: seq<Step>)
    ensures |CallsFor(steps)| <= |steps|
    decreases |steps|
  {
    if steps != [] {
      AtMostOneCallPerRecord(steps[..|steps| - 1]);
    }
  }

  /** Only the calls of steps that issue one are made. */
  lemma {:induction false} CallsFromIssues(steps: seq<Step>, k: nat)
    requires k < |CallsFor(steps)|
    ensures exists i :: 0 <= i < |steps| && steps[i].Issue? && steps[i].call == CallsFor(steps)[k]
    decreases |steps|
  {
    var n := |steps| - 1;
    if k < |CallsFor(steps[..n])| {
      CallsFromIssues(steps[..n], k);
      var i :| 0 <= i < |steps[..n]| && steps[..n][i].Issue? && steps[..n][i].call == CallsFor(steps[..n])[k];
      assert steps[i] == steps[..n][i];
    } else {
      assert steps[n].Issue? && steps[n].call == CallsFor(steps)[k];
    }
  }

  /** Every call a batch issues is authorised. */
  lemma CallsAuthorised(records: seq<Message>, playbooks: map<string, Playbook>, env: map<string, string>)
    ensures var calls := CallsFor(Steps(records, playbooks, env));
      forall k :: 0 <= k < |calls| ==> Authorised(calls[k], playbooks, env)
  {
    var steps := Steps(records, playbooks, env);
    forall k | 0 <= k < |CallsFor(steps)|
      ensures Authorised(CallsFor(steps)[k], playbooks, env)
    {
      CallsFromIssues(steps, k);
      var i :| 0 <= i < |steps| && steps[i].Issue? && steps[i].call == CallsFor(steps)[k];
      IssueIff(records[i], playbooks, env);
    }
  }

  /** A batch without a failing record issues no call. */
  lemma NoFailNoCalls(records: seq<Message>, playbooks: map<string, Playbook>, env: map<string, string>)
    requires forall i :: 0 <= i < |records| ==> !IsFail(records[i])
    ensures CallsFor(Steps(records, playbooks, env)) == []
  {
    var steps := Steps(records, playbooks, env);
    if CallsFor(steps) != [] {
      CallsFromIssues(steps, 0);
      var i :| 0 <= i < |steps| && steps[i].Issue? && steps[i].call == CallsFor(steps)[0];
      IssueIff(records[i], playbooks, env);
    }
  }

  /** Calls are issued in record order: the call of record `i`, if any,
      follows exactly the calls of the records before it. */
  lemma CallOfRecord(steps: seq<Step>, i: nat)
    requires i < |steps| && steps[i].Issue?
    ensures |CallsFor(steps[..i])| < |CallsFor(steps)|
    ensures CallsFor(steps)[|CallsFor(steps[..i])|] == steps[i].call
  {
    assert steps == steps[..i] + ([steps[i]] + steps[i + 1..]);
    CallsForAppend(steps[..i], [steps[i]] + steps[i + 1..]);
    CallsForAppend([steps[i]], steps[i + 1..]);
    assert [steps[i]][..0] == [];
  }

  /** Each record's outcome is decided by that record alone and, when it
      leads to a call, by the service's answer to that call: a stop or a
      failure on one record changes nothing for the others. */
  lemma {:induction false} OutcomeOfRecord(steps: seq<Step>, behaviour: (Call, nat) -> Response, base: nat, i: nat)
    requires i < |steps|
    ensures OutcomesFor(steps, behaviour, base)[i] == Resolve(steps[i], behaviour, base + |CallsFor(steps[..i])|)
    decreases |steps|
  {
    var n := |steps| - 1;
    if i < n {
      OutcomeOfRecord(steps[..n], behaviour, base, i);
      assert steps[..n][..i] == steps[..i];
    }
  }

  /** The handler is not idempotent: a redelivered failing record is
      dispatched again. */
  lemma RedeliveryRepeatsCall(m: Message, playbooks: map<string, Playbook>, env: map<string, string>)
    requires Plan(m, playbooks, env).Issue?
    ensures CallsFor(Steps([m, m], playbooks, env)) == [Plan(m, playbooks, env).call, Plan(m, playbooks, env).call]
  {
    var step := Plan(m, playbooks, env);
    assert Steps([m, m], playbooks, env) == [step, step];
    assert [step][..0] == [];
    assert CallsFor([step]) == [step.call];
    assert [step, step][..1] == [step];
    assert CallsFor([step, step]) == CallsFor([step]) + [step.call];
  }

  // -----------------------------------------------------------------------
  // Worked examples
  // -----------------------------------------------------------------------

  const ExampleRole: string := "arn:aws:iam::123:role/Exec"
  const ExampleEnv: map<string, string> := map["CM6_S3_EXECUTION_ROLE_ARN" := ExampleRole]
  const ExampleBucket: string := "my-bucket"
  const ExampleTarget: string := S3ArnPrefix + ExampleBucket
  const ExampleFail: Message :=
    Message(Some(Object(Str("NIST-800-53-CM-6"), Str(ExampleTarget), Str("FAIL"))))

  lemma ExampleBucketName()
    ensures BucketName(ExampleTarget) == ExampleBucket
  {
    assert forall i :: 0 <= i < |ExampleBucket| ==> ExampleBucket[i] != ':';
    NoColonFree(ExampleBucket);
    BucketNameOfS3Arn(ExampleBucket);
  }

  /** Cuts never overlap and the leftmost occurrence wins: in
      "x::::" the separator is cut at position 1, leaving ":" as the last
      part, not "". */
  lemma ExampleOverlappingSeparator()
    ensures BucketName(S3ArnPrefix + "x::::") == ":"
  {
    var t := "x::::";
    BucketNameOfS3Arn(t);
    assert FreeOf(":", ArnSeparator);
    SplitFree(":", ArnSeparator);
    assert SepAt(t[1..], 0, ArnSeparator);
    assert t[1..][3..] == ":";
    assert Split(t[1..], ArnSeparator) == [[]] + [":"];
    assert !SepAt(t, 0, ArnSeparator);
    assert Split(t, ArnSeparator) == [[t[0]] + []] + [":"];
  }

  /** A string without a colon holds no `:::`. */
  lemma NoColonFree(s: string)
    requires forall i :: 0 <= i < |s| ==> s[i] != ':'
    ensures FreeOf(s, ArnSeparator)
  {
    forall i: nat | i < |s|
      ensures !SepAt(s, i, ArnSeparator)
    {
      if i + |ArnSeparator| <= |s| {
        assert s[i..i + |ArnSeparator|][0] == s[i];
      }
    }
  }

  /** A failing CM-6 record for `my-bucket` with the role set dispatches one
      call to the CM-6 document with the bucket and the role. */
  lemma ExampleDispatch()
    ensures CallsFor(Steps([ExampleFail], RemediationPlaybookMap, ExampleEnv)) == [Call(
      "PraetoriumNexus-CM-6-S3-Public-Access-Fix",
      map["BucketName" := [ExampleBucket], "AutomationAssumeRole" := [ExampleRole]],
      [Tag("TriggeredBy", "Praetorian_Guard_Lambda"),
       Tag("ControlID", "NIST-800-53-CM-6"),
       Tag("TargetID", ExampleTarget)])]
  {
    ExampleBucketName();
    DispatchedCall(ExampleFail, RemediationPlaybookMap, ExampleEnv, "NIST-800-53-CM-6", ExampleTarget, ExampleRole);
    var step := Plan(ExampleFail, RemediationPlaybookMap, ExampleEnv);
    assert Steps([ExampleFail], RemediationPlaybookMap, ExampleEnv) == [step];
    assert [step][..0] == [];
  }

  /** A passing record, then a failing record of an unknown control, then
      the failing CM-6 record: only the last one is dispatched, and the
      first two end as skipped and as a lookup miss. */
  lemma ExampleMixedBatch(behaviour: (Call, nat) -> Response)
    ensures var batch := [
        Message(Some(Object(Str("NIST-800-53-CM-6"), Str(ExampleTarget), Str("PASS")))),
        Message(Some(Object(Str("NIST-800-53-AC-2"), Str(ExampleTarget), Str("FAIL")))),
        ExampleFail];
      var steps := Steps(batch, RemediationPlaybookMap, ExampleEnv);
      && CallsFor(steps) == CallsFor(Steps([ExampleFail], RemediationPlaybookMap, ExampleEnv))
      && OutcomesFor(steps, behaviour, 0)[..2] == [Skipped, NoPlaybook]
  {
    var pass := Message(Some(Object(Str("NIST-800-53-CM-6"), Str(ExampleTarget), Str("PASS"))));
    var unknown := Message(Some(Object(Str("NIST-800-53-AC-2"), Str(ExampleTarget), Str("FAIL"))));
    var batch := [pass, unknown, ExampleFail];
    var steps := Steps(batch, RemediationPlaybookMap, ExampleEnv);
    var last := Steps([ExampleFail], RemediationPlaybookMap, ExampleEnv);
    assert steps == [Stop(Skipped), Stop(NoPlaybook)] + last;
    CallsForAppend([Stop(Skipped), Stop(NoPlaybook)], last);
    assert [Stop(Skipped), Stop(NoPlaybook)][..1] == [Stop(Skipped)];
    assert [Stop(Skipped)][..0] == [];
    OutcomeOfRecord(steps, behaviour, 0, 0);
    OutcomeOfRecord(steps, behaviour, 0, 1);
    var outcomes := OutcomesFor(steps, behaviour, 0);
    assert outcomes[..2] == [outcomes[0], outcomes[1]];
  }
}
