/** The key-value store behind its authenticated handlers, and what its client makes of their answers. */
module KvStore {
  import opened Seqs
  import opened Token

  const OK := 200
  const BAD_REQUEST := 400
  const UNAUTHORIZED := 401
  const NOT_FOUND := 404

  const BEARER := "Bearer "

  datatype Call = Get | Post(body: string)

  /** A routed request: the key from the path and the Authorization header, "" when there is none. */
  datatype Request = Request(call: Call, key: string, authorization: string)

  datatype Response = Response(status: nat, body: string)

  /** The middleware's check of a token at a time. */
  datatype Server = Server(validate: (string, int) -> bool)

  /** The server that checks tokens against its signing key. */
  function Signed(mac: Mac, signingKey: string, maxAge: int): Server {
    Server((token: string, now: int) => ValidateToken(mac, token, signingKey, now, maxAge))
  }

  predicate Authorized(server: Server, authorization: string, now: int) {
    BEARER <= authorization && server.validate(authorization[|BEARER|..], now)
  }

  predicate Accepts(server: Server, r: Request, now: int) {
    r.call.Post? && r.call.body != "" && Authorized(server, r.authorization, now)
  }

  function After(server: Server, store: map<string, string>, r: Request, now: int): map<string, string> {
    if Accepts(server, r, now) then store[r.key := r.call.body] else store
  }

  function Answer(server: Server, store: map<string, string>, r: Request, now: int): Response {
    if !Authorized(server, r.authorization, now) then
      Response(UNAUTHORIZED, if BEARER <= r.authorization then "invalid auth\n" else "missing auth\n")
    else match r.call
      case Get => if r.key in store then Response(OK, store[r.key]) else Response(NOT_FOUND, "Key not found\n")
      case Post(body) => if body == "" then Response(BAD_REQUEST, "Invalid request payload\n") else Response(OK, "")
  }

  class KeyValueStore {
    var store: map<string, string>

    constructor ()
      ensures store == map[]
    {
      store := map[];
    }

    method Clear()
      modifies this
      ensures store == map[]
    {
      store := map[];
    }

    method GetVal(key: string) returns (val: string, ok: bool)
      ensures ok <==> key in store
      ensures val == if ok then store[key] else ""
    {
      ok := key in store;
      val := if ok then store[key] else "";
    }

    method SetVal(key: string, val: string)
      modifies this
      ensures store == old(store)[key := val]
    {
      store := store[key := val];
    }

    /** The middleware in front of the two handlers. */
    method Handle(server: Server, r: Request, now: int) returns (w: Response)
      modifies this
      ensures w == Answer(server, old(store), r, now)
      ensures store == After(server, old(store), r, now)
    {
      if |r.authorization| < |BEARER| || r.authorization[..|BEARER|] != BEARER {
        return Response(UNAUTHORIZED, "missing auth\n");
      }
      if !server.validate(r.authorization[|BEARER|..], now) {
        return Response(UNAUTHORIZED, "invalid auth\n");
      }
      match r.call {
        case Get =>
          var value, ok := GetVal(r.key);
          w := if ok then Response(OK, value) else Response(NOT_FOUND, "Key not found\n");
        case Post(body) =>
          if |body| == 0 {
            return Response(BAD_REQUEST, "Invalid request payload\n");
          }
          SetVal(r.key, body);
          w := Response(OK, "");
      }
    }
  }

  // ---------- the client ----------

  function Bearer(auth: string): string { BEARER + auth }

  /** The value, or none for an error; no response stands for a failed transport. */
  function GetValue(response: Option<Response>): Option<string> {
    match response
    case None => None
    case Some(w) => if w.status == NOT_FOUND then Some("") else if w.status != OK then None else Some(w.body)
  }

  function SetValue(response: Option<Response>): bool {
    response.Some? && response.value.status == OK
  }

  // ---------- whole histories ----------

  /** A request and the time at which it is handled. */
  datatype Event = Event(request: Request, now: int)

  function Stored(server: Server, events: seq<Event>): map<string, string> {
    if events == [] then map[] else
      After(server, Stored(server, events[..|events| - 1]), events[|events| - 1].request, events[|events| - 1].now)
  }

  /** Event `i` is the last accepted post to `key`. */
  ghost predicate LastPost(server: Server, events: seq<Event>, key: string, i: nat) {
    && i < |events|
    && Posts(server, events[i], key)
    && forall j :: i < j < |events| ==> !Posts(server, events[j], key)
  }

  predicate Posts(server: Server, e: Event, key: string) {
    Accepts(server, e.request, e.now) && e.request.key == key
  }

  function LastBody(server: Server, events: seq<Event>, key: string): string {
    if events == [] then "" else
      var e := events[|events| - 1];
      if Posts(server, e, key) then e.request.call.body else LastBody(server, events[..|events| - 1], key)
  }

  lemma {:induction false} StoredIsLastBody(server: Server, events: seq<Event>, key: string)
    ensures key in Stored(server, events) <==> LastBody(server, events, key) != ""
    ensures key in Stored(server, events) ==> Stored(server, events)[key] == LastBody(server, events, key)
  {
    if events != [] {
      StoredIsLastBody(server, events[..|events| - 1], key);
    }
  }

  lemma {:induction false} LastBodyIsLastPost(server: Server, events: seq<Event>, key: string, i: nat)
    requires LastPost(server, events, key, i)
    ensures LastBody(server, events, key) == events[i].request.call.body != ""
  {
    var n := |events| - 1;
    if i < n {
      assert !Posts(server, events[n], key);
      LastBodyIsLastPost(server, events[..n], key, i);
    }
  }

  lemma {:induction false} NoPostNoBody(server: Server, events: seq<Event>, key: string)
    ensures LastBody(server, events, key) == "" <==> forall i :: 0 <= i < |events| ==> !Posts(server, events[i], key)
  {
    if events != [] {
      var n := |events| - 1;
      NoPostNoBody(server, events[..n], key);
      assert forall i :: 0 <= i < n ==> events[..n][i] == events[i];
    }
  }

  /** A client with a valid token reads the value of the last accepted post, and reads "" exactly when
      there has been none: a present value is never empty. */
  lemma ClientReadsLastPost(server: Server, events: seq<Event>, key: string, auth: string, now: int)
    requires server.validate(auth, now)
    ensures var read := GetValue(Some(Answer(server, Stored(server, events), Request(Get, key, Bearer(auth)), now)));
            && read.Some?
            && (read == Some("") <==> forall i :: 0 <= i < |events| ==> !Posts(server, events[i], key))
            && forall i: nat :: LastPost(server, events, key, i) ==> read == Some(events[i].request.call.body)
  {
    assert Bearer(auth)[|BEARER|..] == auth;
    StoredIsLastBody(server, events, key);
    NoPostNoBody(server, events, key);
    forall i: nat | LastPost(server, events, key, i)
      ensures LastBody(server, events, key) == events[i].request.call.body
    {
      LastBodyIsLastPost(server, events, key, i);
    }
  }

  /** A client's write succeeds exactly when it is accepted, and only then changes the store. */
  lemma ClientWritesIff(server: Server, store: map<string, string>, key: string, value: string, auth: string, now: int)
    ensures var r := Request(Post(value), key, Bearer(auth));
            && (SetValue(Some(Answer(server, store, r, now))) <==>
                value != "" && server.validate(auth, now))
            && After(server, store, r, now) ==
               if SetValue(Some(Answer(server, store, r, now))) then store[key := value] else store
  {
    assert Bearer(auth)[|BEARER|..] == auth;
  }

  /** Any request whatever: it is refused with 401, the store untouched, exactly when its header is not
      "Bearer " and a token that is valid at the time. */
  lemma RefusedIff(server: Server, store: map<string, string>, r: Request, now: int)
    ensures Answer(server, store, r, now).status == 401 <==>
            !exists token :: r.authorization == "Bearer " + token && server.validate(token, now)
    ensures Answer(server, store, r, now).status == 401 ==>
              After(server, store, r, now) == store &&
              Answer(server, store, r, now).body ==
              if exists token :: r.authorization == "Bearer " + token then "invalid auth\n" else "missing auth\n"
  {
    if BEARER <= r.authorization {
      assert r.authorization == "Bearer " + r.authorization[7..];
    }
    forall token | r.authorization == "Bearer " + token
      ensures BEARER <= r.authorization && r.authorization[7..] == token
    {
    }
  }

  /** Any request that is let in: a read answers the value under its key, or 404 when there is none; a
      write stores its body under its key and changes nothing else, but an empty body is refused. */
  lemma LetIn(server: Server, store: map<string, string>, r: Request, now: int)
    requires Answer(server, store, r, now).status != 401
    ensures r.call.Get? ==>
              After(server, store, r, now) == store &&
              if r.key in store then Answer(server, store, r, now) == Response(200, store[r.key])
              else Answer(server, store, r, now) == Response(404, "Key not found\n")
    ensures r.call.Post? && r.call.body == "" ==>
              After(server, store, r, now) == store &&
              Answer(server, store, r, now) == Response(400, "Invalid request payload\n")
    ensures r.call.Post? && r.call.body != "" ==>
              After(server, store, r, now) == store[r.key := r.call.body] &&
              Answer(server, store, r, now) == Response(200, "")
  {
  }

  /** A client's read gives an error exactly when its token is not valid or there is no response. */
  lemma ClientReadFailsIff(server: Server, store: map<string, string>, key: string, auth: string, now: int)
    ensures GetValue(Some(Answer(server, store, Request(Get, key, Bearer(auth)), now))) == None <==>
            !server.validate(auth, now)
    ensures GetValue(None) == None && !SetValue(None)
  {
    assert Bearer(auth)[|BEARER|..] == auth;
  }

  /** A client holding the token generated for a server is let in exactly while the token is young
      enough. */
  lemma GeneratedTokenLetsIn(mac: Mac, signingKey: string, maxAge: int, issued: int, nonce: string, now: int)
    requires Int64(issued / SECOND) && '.' !in nonce
    ensures Authorized(Signed(mac, signingKey, maxAge), Bearer(GenerateToken(mac, signingKey, issued, nonce)), now) <==>
            Since(now, issued / SECOND) <= maxAge
  {
    var token := GenerateToken(mac, signingKey, issued, nonce);
    assert Bearer(token)[|BEARER|..] == token;
    GeneratedValidatesIff(mac, signingKey, issued, nonce, now, maxAge);
  }
}
