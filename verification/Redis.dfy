/** The Redis commands the stack uses (SET EX, SET NX EX, GET, DEL) over a
    millisecond clock.  A record is alive while the clock is below its expiry;
    a dead record answers every command as if it were absent. */
module Redis {
  import opened Wrappers

  // Replay and nonce records store a mark; the token cache stores an entry.
  datatype Value = Mark | Token(accessToken: string, expiresAt: int, scopes: seq<string>)

  datatype Entry = Entry(value: Value, expiresAtMs: int)

  type Store = map<string, Entry>

  predicate Alive(s: Store, key: string, nowMs: int) {
    key in s && nowMs < s[key].expiresAtMs
  }

  datatype Cmd = Set(value: Value, ttlSeconds: int) | SetNx(value: Value, ttlSeconds: int) | Get | Del

  datatype Reply = Ok | Conflict | Found(value: Value) | Missing | Deleted(count: nat)

  function Apply(s: Store, key: string, cmd: Cmd, nowMs: int): (Store, Reply) {
    match cmd
    case Set(v, ttl) => (s[key := Entry(v, nowMs + ttl * 1000)], Ok)
    case SetNx(v, ttl) =>
      if Alive(s, key, nowMs) then (s, Conflict) else (s[key := Entry(v, nowMs + ttl * 1000)], Ok)
    case Get => (s, if Alive(s, key, nowMs) then Found(s[key].value) else Missing)
    case Del => (s - {key}, Deleted(if Alive(s, key, nowMs) then 1 else 0))
  }

  /** The server: one mutable key space shared by every client. */
  class Server {
    var data: Store

    constructor ()
      ensures data == map[]
    {
      data := map[];
    }

    method Set(key: string, value: Value, ttlSeconds: int, nowMs: int)
      modifies this
      ensures data == Apply(old(data), key, Cmd.Set(value, ttlSeconds), nowMs).0
    {
      data := data[key := Entry(value, nowMs + ttlSeconds * 1000)];
    }

    method SetNx(key: string, value: Value, ttlSeconds: int, nowMs: int) returns (ok: bool)
      modifies this
      ensures data == Apply(old(data), key, Cmd.SetNx(value, ttlSeconds), nowMs).0
      ensures ok <==> !Alive(old(data), key, nowMs)
    {
      ok := !(key in data && nowMs < data[key].expiresAtMs);
      if ok {
        data := data[key := Entry(value, nowMs + ttlSeconds * 1000)];
      }
    }

    method Get(key: string, nowMs: int) returns (value: Option<Value>)
      ensures value == if Alive(data, key, nowMs) then Some(data[key].value) else None
    {
      if key in data && nowMs < data[key].expiresAtMs {
        return Some(data[key].value);
      }
      return None;
    }

    method Del(key: string, nowMs: int) returns (removed: nat)
      modifies this
      ensures data == Apply(old(data), key, Cmd.Del, nowMs).0
      ensures removed == if Alive(old(data), key, nowMs) then 1 else 0
    {
      removed := if key in data && nowMs < data[key].expiresAtMs then 1 else 0;
      data := data - {key};
    }
  }
}

/** Every client of the shared Redis writes `prefix + suffix` for its own prefix.
    Because no prefix begins another, the shared server behaves towards each
    client exactly like a private one. */
module Keyspace {
  import opened Redis

  const JTI := "dpop:jti:"
  const EXCHANGE := "dpop-exchange:"
  const NONCE := "dpop:nonce:"
  const RECEIVER_NONCE := "dpop-nonce:"
  const ENVELOPE := "env:jti:"
  const BROKER := "broker:jti:"
  const M2M := "m2m:"

  const PREFIXES: set<string> := {JTI, EXCHANGE, NONCE, RECEIVER_NONCE, ENVELOPE, BROKER, M2M}

  // Neither string is a prefix of the other.
  predicate Separate(p: string, q: string) {
    !(p <= q) && !(q <= p)
  }

  lemma SeparateAt(p: string, q: string, i: nat)
    requires i < |p| && i < |q| && p[i] != q[i]
    ensures Separate(p, q)
  {
  }

  // The seven prefixes of the deployment.
  lemma DeployedPrefixesSeparate(p: string, q: string)
    requires p in PREFIXES && q in PREFIXES && p != q
    ensures Separate(p, q)
  {
    if p[0] != q[0] {
      SeparateAt(p, q, 0);
    } else if p[4] != q[4] {
      SeparateAt(p, q, 4);
    } else {
      SeparateAt(p, q, 5);
    }
  }

  // Keys under separate prefixes never meet, whatever the suffixes.
  lemma KeysNeverMeet(p: string, a: string, q: string, b: string)
    requires Separate(p, q)
    ensures p + a != q + b
    ensures !(p <= q + b)
  {
    var k := if |p| < |q| then |p| else |q|;
    assert exists i :: 0 <= i < k && p[i] != q[i];
    var i :| 0 <= i < k && p[i] != q[i];
    assert (p + a)[i] == p[i] && (q + b)[i] == q[i];
  }

  // One command, issued by the client that owns `prefix`.
  datatype Request = Request(prefix: string, suffix: string, cmd: Cmd, atMs: int)

  function Key(r: Request): string {
    r.prefix + r.suffix
  }

  // The shared server: final store and the reply to each request.
  function Serve(s: Store, rs: seq<Request>): (Store, seq<Reply>)
    decreases rs
  {
    if rs == [] then (s, [])
    else
      var (s1, reply) := Apply(s, Key(rs[0]), rs[0].cmd, rs[0].atMs);
      var (s2, replies) := Serve(s1, rs[1..]);
      (s2, [reply] + replies)
  }

  // What the owner of prefix p can see of a store.
  function View(s: Store, p: string): Store {
    map k | k in s && p <= k :: s[k]
  }

  // Keep the requests (and the replies) of one client.
  function Own(rs: seq<Request>, p: string): seq<Request> {
    if rs == [] then []
    else (if rs[0].prefix == p then [rs[0]] else []) + Own(rs[1..], p)
  }

  function OwnReplies(rs: seq<Request>, replies: seq<Reply>, p: string): seq<Reply>
    requires |rs| == |replies|
  {
    if rs == [] then []
    else (if rs[0].prefix == p then [replies[0]] else []) + OwnReplies(rs[1..], replies[1..], p)
  }

  lemma {:induction false} ServeLength(s: Store, rs: seq<Request>)
    ensures |Serve(s, rs).1| == |rs|
    decreases rs
  {
    if rs != [] {
      ServeLength(Apply(s, Key(rs[0]), rs[0].cmd, rs[0].atMs).0, rs[1..]);
    }
  }

  predicate PrefixFree(rs: seq<Request>, p: string) {
    forall i :: 0 <= i < |rs| && rs[i].prefix != p ==> Separate(rs[i].prefix, p)
  }

  lemma OwnStep(s: Store, r: Request, p: string)
    requires r.prefix == p
    ensures View(Apply(s, Key(r), r.cmd, r.atMs).0, p) == Apply(View(s, p), Key(r), r.cmd, r.atMs).0
    ensures Apply(s, Key(r), r.cmd, r.atMs).1 == Apply(View(s, p), Key(r), r.cmd, r.atMs).1
  {
    assert p <= Key(r);
  }

  lemma OtherStep(s: Store, r: Request, p: string)
    requires Separate(r.prefix, p)
    ensures View(Apply(s, Key(r), r.cmd, r.atMs).0, p) == View(s, p)
  {
    KeysNeverMeet(p, "", r.prefix, r.suffix);
  }

  /** Sharing one Redis is invisible: over every request history, each client
      gets the replies, and leaves the records, of a Redis used by it alone. */
  lemma {:induction false} SharedRefinesPrivate(s: Store, rs: seq<Request>, p: string)
    requires PrefixFree(rs, p)
    ensures |Serve(s, rs).1| == |rs|
    ensures View(Serve(s, rs).0, p) == Serve(View(s, p), Own(rs, p)).0
    ensures OwnReplies(rs, Serve(s, rs).1, p) == Serve(View(s, p), Own(rs, p)).1
    decreases rs
  {
    ServeLength(s, rs);
    if rs != [] {
      var r, rest := rs[0], rs[1..];
      var (s1, reply) := Apply(s, Key(r), r.cmd, r.atMs);
      SharedRefinesPrivate(s1, rest, p);
      assert Serve(s, rs).1[1..] == Serve(s1, rest).1;
      if r.prefix == p {
        OwnStep(s, r, p);
        assert Own(rs, p)[1..] == Own(rest, p);
      } else {
        OtherStep(s, r, p);
        assert Own(rs, p) == Own(rest, p);
      }
    }
  }

  // In particular for the deployment, whose clients only use PREFIXES.
  lemma DeploymentRefinesPrivate(s: Store, rs: seq<Request>, p: string)
    requires p in PREFIXES && forall i :: 0 <= i < |rs| ==> rs[i].prefix in PREFIXES
    ensures |Serve(s, rs).1| == |rs|
    ensures View(Serve(s, rs).0, p) == Serve(View(s, p), Own(rs, p)).0
    ensures OwnReplies(rs, Serve(s, rs).1, p) == Serve(View(s, p), Own(rs, p)).1
  {
    forall i | 0 <= i < |rs| && rs[i].prefix != p
      ensures Separate(rs[i].prefix, p)
    {
      DeployedPrefixesSeparate(rs[i].prefix, p);
    }
    SharedRefinesPrivate(s, rs, p);
  }
}
