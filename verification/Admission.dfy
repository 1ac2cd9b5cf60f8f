/** The checks a request passes before the registry's lock is taken. */
module Admission {
  import opened Text
  import opened Nodes
  import opened Validators
  import opened Store
  import opened FormatNames

  datatype Config = Config(listen: string, publicBaseURL: string, registerTokens: seq<string>,
                           subscribeTokens: seq<string>,
                           dataFile: string)

  /** One part of a request as each server makes it out. The two do not always see the same: Go refuses a body with
      unknown fields and takes a field name in any case, the Worker refuses text after the object; Go unescapes a path
      once more; a header outside ASCII reaches JavaScript as one character per byte. */
  datatype Both<T> = Both(go: T, worker: T)

  function Same<T>(x: T): Both<T> { Both(x, x) }

  /** A request as it arrives; a body or an escaped id is None where it does not decode. */
  datatype Request =
    | Register(verb: string, header: Both<string>, body: Both<Option<Node>>, now: Bytes)
    | Delete(verb: string, header: Both<string>, pathID: Both<Option<string>>)
    | ListNodes(verb: string, header: Both<string>)
    | Subscribe(verb: string, token: string, format: string)

  datatype Job = Write(op: Op) | Read

  datatype Verdict = Refuse(status: nat) | Admit(job: Job)

  predicate Known(tokens: seq<string>, token: string) {
    token != "" && token in tokens
  }

  function BearerToken(header: string): string {
    match Expect("Bearer ", header)
    case None => ""
    case Some(rest) => TrimSpace(Go, rest)
  }

  /** The token is what follows `Bearer ` at the very start of the header, trimmed. */
  lemma BearerMeaning(header: string)
    ensures BearerToken(header) != "" ==> |header| > 7 && header[..7] == "Bearer "
    ensures |header| >= 7 && header[..7] == "Bearer " ==> BearerToken(header) == TrimSpace(Go, header[7..])
  {
    hide TrimSpace;
    NothingTrimmed(Go);
    assert |"Bearer "| == 7;
    assert "Bearer " <= header <==> |header| >= 7 && header[..7] == "Bearer ";
    if |header| == 7 { assert header[7..] == ""; }
  }

  lemma NothingTrimmed(side: Side)
    ensures TrimSpace(side, "") == ""
  {
  }

  function Judge(config: Config, request: Request): Verdict {
    match request
    case Register(verb, header, body, now) =>
      if verb != "POST" then Refuse(405)
      else if !Known(config.registerTokens, BearerToken(header.go)) then Refuse(401)
      else if body.go == None || GoProblem(body.go.value) != None then Refuse(400)
      else Admit(Write(Put(body.go.value.(updatedAt := now))))
    case Delete(verb, header, pathID) =>
      if verb != "DELETE" then Refuse(405)
      else if !Known(config.registerTokens, BearerToken(header.go)) then Refuse(401)
      else if pathID.go == None || !NodeIDPattern(pathID.go.value) then Refuse(400)
      else Admit(Write(Remove(pathID.go.value)))
    case ListNodes(verb, header) =>
      if verb != "GET" then Refuse(405)
      else if !Known(config.registerTokens, BearerToken(header.go)) then Refuse(401)
      else Admit(Read)
    case Subscribe(verb, token, _) =>
      if verb != "GET" then Refuse(405)
      else if !Known(config.subscribeTokens, token) then Refuse(401)
      else Admit(Read)
  }

  lemma StampKeepsVerdict(node: Node, now: Bytes)
    ensures GoProblem(node.(updatedAt := now)) == GoProblem(node)
  {
  }

  /** Stamping a node does not change the verdict on it: whatever is admitted for storing is valid. */
  lemma AdmittedIsValid(config: Config, request: Request)
    requires Judge(config, request).Admit? && Judge(config, request).job.Write?
    requires Judge(config, request).job.op.Put?
    ensures ValidNode(Judge(config, request).job.op.node)
  {
    StampKeepsVerdict(request.body.go.value, request.now);
  }

  /** The answer to a read: an unknown subscription format is found out only after the listing is taken. */
  function ReadStatus(request: Request): nat {
    if request.Subscribe? && GoQueryFormat(request.format) == None then 400 else 200
  }

  /** One request served from lock to unlock with every save succeeding: the new map and the HTTP status. */
  function Serve(config: Config, store: Table, request: Request): (Table, nat) {
    match Judge(config, request)
    case Refuse(status) => (store, status)
    case Admit(Read) => (store, ReadStatus(request))
    case Admit(Write(op)) =>
      if op.Remove? && op.id !in store then (store, 404) else (Apply(store, op), 200)
  }
}
