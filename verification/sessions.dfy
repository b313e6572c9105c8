/**
 * The session registry of cmd/chat/sessions: a map from token to session, the
 * patch a game client sends to update its session, and the JSON view of a
 * session. The Go aggregator serves one request at a time from its channels
 * (sessions.go:46-60); here each request is a method of `SessionStore`.
 *
 * Times are nanosecond counts (Go's `time.Time` and `time.Duration`); the
 * current time and the generated UUID are parameters.
 *
 * `SessionStore` follows the pointer map of types.go:33, under which a patch
 * changes the stored session. sessions.go:31 builds a map of session values
 * instead, under which the patch of sessions.go:92-102 changes a copy; that
 * behaviour is `PatchAsWritten`, and `PatchIsLostAsWritten` exhibits the
 * difference.
 */
module Sessions {
  import opened Wrappers
  import opened GoMaps

  /** Go's `time.Minute`, in nanoseconds. */
  const Minute: int := 60_000_000_000

  /** `tokenLifetimeMinutes` (sessions.go:44). */
  const TokenLifetimeMinutes: int := 1

  /** The expiry of a session created or refreshed at `now`. */
  function Expiry(now: int): int
  {
    now + Minute * TokenLifetimeMinutes
  }

  datatype Session = Session(token: string, isInGame: bool, gameInstance: string, playerName: string, expiry: int)

  /** The JSON view of a session, and the body of a patch request: a field
      that is `None` is a JSON null (a nil pointer in Go). */
  datatype SessionAsJson = SessionAsJson(token: string, gameInstance: Option<string>,
                                         isInGame: Option<bool>, playerName: Option<string>)

  /** `SessionToJson` (sessions.go:17-28): a nil session gives the zero value,
      otherwise every field but the expiry is copied. */
  function SessionToJson(s: Option<Session>): (j: SessionAsJson)
    ensures s.None? ==> j.token == "" && j.gameInstance.None? && j.isInGame.None? && j.playerName.None?
    ensures s.Some? ==> && j.token == s.value.token
                        && j.gameInstance == Some(s.value.gameInstance)
                        && j.isInGame == Some(s.value.isInGame)
                        && j.playerName == Some(s.value.playerName)
  {
    match s
    case None => SessionAsJson("", None, None, None)
    case Some(v) => SessionAsJson(v.token, Some(v.gameInstance), Some(v.isInGame), Some(v.playerName))
  }

  /** The session `request` creates (sessions.go:66-72). */
  function NewSession(uuid: string, now: int): (s: Session)
    ensures s.token == uuid && !s.isInGame && s.gameInstance == "" && s.playerName == ""
    ensures s.expiry == now + Minute
  {
    Session(uuid, false, "", "", Expiry(now))
  }

  /** The field updates of `patchFromJson` (sessions.go:93-102): each field
      the request carries replaces the session's, the others stay, the token
      is kept and the expiry is refreshed. */
  function ApplyPatch(s: Session, req: SessionAsJson, now: int): (s': Session)
    ensures s'.token == s.token
    ensures s'.isInGame == if req.isInGame.Some? then req.isInGame.value else s.isInGame
    ensures s'.gameInstance == if req.gameInstance.Some? then req.gameInstance.value else s.gameInstance
    ensures s'.playerName == if req.playerName.Some? then req.playerName.value else s.playerName
    ensures s'.expiry == now + Minute
  {
    var s1 := if req.isInGame.Some? then s.(isInGame := req.isInGame.value) else s;
    var s2 := if req.gameInstance.Some? then s1.(gameInstance := req.gameInstance.value) else s1;
    var s3 := if req.playerName.Some? then s2.(playerName := req.playerName.value) else s2;
    s3.(expiry := Expiry(now))
  }

  /** The request `later` applied after `earlier`: the later request's
      fields win. */
  function Merge(earlier: SessionAsJson, later: SessionAsJson): SessionAsJson
  {
    SessionAsJson(later.token,
                  if later.gameInstance.Some? then later.gameInstance else earlier.gameInstance,
                  if later.isInGame.Some? then later.isInGame else earlier.isInGame,
                  if later.playerName.Some? then later.playerName else earlier.playerName)
  }

  /** Two patches in a row are one patch with the merged request, at the time
      of the second. */
  lemma PatchTwice(s: Session, first: SessionAsJson, second: SessionAsJson, t1: int, t2: int)
    ensures ApplyPatch(ApplyPatch(s, first, t1), second, t2) == ApplyPatch(s, Merge(first, second), t2)
  {
  }

  /** Repeating a patch changes nothing but the expiry. */
  lemma PatchIdempotent(s: Session, req: SessionAsJson, t1: int, t2: int)
    ensures ApplyPatch(ApplyPatch(s, req, t1), req, t2) == ApplyPatch(s, req, t2)
  {
    PatchTwice(s, req, req, t1, t2);
    assert Merge(req, req) == req;
  }

  /** A patch without fields is a heartbeat: only the expiry moves
      (sessions.go:102). */
  lemma EmptyPatchRefreshes(s: Session, token: string, now: int)
    ensures ApplyPatch(s, SessionAsJson(token, None, None, None), now) == s.(expiry := now + Minute)
  {
  }

  /** Sending a session's own JSON view back as a patch is a heartbeat too. */
  lemma OwnJsonRefreshes(s: Session, now: int)
    ensures ApplyPatch(s, SessionToJson(Some(s)), now) == s.(expiry := now + Minute)
  {
  }

  /** `patchFromJson` as written over the value map that sessions.go:31
      builds: `find` hands back the address of a copy (sessions.go:78-79), the
      patch changes that copy, and the map keeps the old session, while the
      result is still `true` for a known token. */
  function PatchAsWritten(tokens: map<string, Session>, token: string, req: Option<SessionAsJson>, now: int)
    : (r: (bool, map<string, Session>))
    ensures r.0 <==> req.Some? && token in tokens
    ensures r.1 == tokens
  {
    if req.None? then (false, tokens)
    else if token in tokens then
      var copy := tokens[token];
      var patched := ApplyPatch(copy, req.value, now);
      (true, tokens)
    else (false, tokens)
  }

  /** A patch that reports success but is lost: a player name sent for a
      fresh session is not in the map afterwards. */
  lemma PatchIsLostAsWritten()
    ensures var tokens := map["t" := NewSession("t", 0)];
      var req := Some(SessionAsJson("t", None, None, Some("ann")));
      var (ok, tokens') := PatchAsWritten(tokens, "t", req, 5);
      ok && tokens'["t"].playerName == "" && ApplyPatch(tokens["t"], req.value, 5).playerName == "ann"
  {
  }

  /** The `Sessions` registry of types.go:32-37, with `*Session` values. */
  class SessionStore {
    var tokens: map<string, Session>

    /** Every session is stored under its own token. */
    ghost predicate Valid()
      reads this
    {
      forall k :: k in tokens ==> tokens[k].token == k
    }

    /** `MakeSessions` (sessions.go:30-40): an empty registry. */
    constructor ()
      ensures Valid() && tokens == map[]
    {
      tokens := map[];
    }

    /** `request` (sessions.go:65-75): a fresh session under the generated
        token. There is no collision check: a session already under that token
        is replaced. */
    method Request(uuid: string, now: int) returns (token: string)
      requires Valid()
      modifies this
      ensures Valid()
      ensures token == uuid
      ensures tokens == old(tokens)[uuid := NewSession(uuid, now)]
    {
      var session := NewSession(uuid, now);
      tokens := tokens[session.token := session];
      token := session.token;
    }

    /** `find` (sessions.go:77-83): the stored session, or nil; a session it
        finds carries the token it was asked for. */
    function Find(token: string): (r: Option<Session>)
      reads this
      ensures r.Some? <==> token in tokens
      ensures r.Some? ==> r.value == tokens[token]
      ensures Valid() && r.Some? ==> r.value.token == token
    {
      if token in tokens then Some(tokens[token]) else None
    }

    /** `patchFromJson` (sessions.go:85-107) over a store whose patches
        persist: false and no change for a nil request or an unknown token,
        otherwise true and the stored session patched. */
    method PatchFromJson(token: string, req: Option<SessionAsJson>, now: int) returns (ok: bool)
      requires Valid()
      modifies this
      ensures Valid()
      ensures ok <==> req.Some? && token in old(tokens)
      ensures tokens == if ok then old(tokens)[token := ApplyPatch(old(tokens)[token], req.value, now)]
                        else old(tokens)
    {
      if req.None? {
        return false;
      }
      var found := Find(token);
      if found.None? {
        return false;
      }
      var s := found.value;
      var r := req.value;
      if r.isInGame.Some? {
        s := s.(isInGame := r.isInGame.value);
      }
      if r.gameInstance.Some? {
        s := s.(gameInstance := r.gameInstance.value);
      }
      if r.playerName.Some? {
        s := s.(playerName := r.playerName.value);
      }
      s := s.(expiry := Expiry(now));
      tokens := tokens[token := s];
      return true;
    }

    /** `cleanUpExpired` (sessions.go:109-114), a stub: it logs the number of
        sessions and then every entry, in map order, and removes nothing. */
    method CleanUpExpired() returns (count: nat, logged: seq<(string, Session)>)
      ensures count == |tokens|
      ensures Enumerates(logged, tokens)
      ensures |logged| == count
    {
      count := |tokens|;
      logged := Enumerate(tokens);
      EnumerationLength(logged, tokens);
    }
  }
}
