/**
 * The idempotency reservation protocol of lib/idempotencyStore.js: begin takes a row keyed by the
 * request, complete stores the answer in it, abort deletes it, and a sweep deletes old answers.
 */
module Idempotency {
  import opened Text
  import opened StableJson

  // ----- Reservation ids and payload hashes -----

  /** [scope, docId, username, key].join('|'), the text under the sha1 of a reservation id. */
  function KeyText(scope: string, doc: string, user: string, key: string): string {
    Join([scope, doc, user, key], "|")
  }

  lemma KeyTextParts(scope: string, doc: string, user: string, key: string)
    ensures KeyText(scope, doc, user, key) == scope + ("|" + (doc + ("|" + (user + ("|" + key)))))
  {
    assert [scope, doc, user, key][1..] == [doc, user, key];
    assert [doc, user, key][1..] == [user, key];
    assert [user, key][1..] == [key];
    var last := user + ("|" + key);
    assert Join([user, key], "|") == last;
    assert Join([doc, user, key], "|") == doc + ("|" + last);
  }

  function Bars(s: string): nat {
    if s == "" then 0 else Bars(s[..|s| - 1]) + (if s[|s| - 1] == '|' then 1 else 0)
  }

  lemma {:induction false} BarsConcat(a: string, b: string)
    ensures Bars(a + b) == Bars(a) + Bars(b)
  {
    if b == "" {
      assert a + b == a;
    } else {
      assert (a + b)[..|a + b| - 1] == a + b[..|b| - 1];
      BarsConcat(a, b[..|b| - 1]);
    }
  }

  lemma {:induction false} NoBars(s: string)
    ensures Bars(s) == 0 <==> '|' !in s
  {
    if s != "" {
      NoBars(s[..|s| - 1]);
      assert s == s[..|s| - 1] + [s[|s| - 1]];
    }
  }

  lemma BarsOfText(s: string, d: string, u: string, k: string)
    ensures Bars(KeyText(s, d, u, k)) == 3 + Bars(s) + Bars(d) + Bars(u) + Bars(k)
  {
    KeyTextParts(s, d, u, k);
    assert "|"[..0] == "" && Bars("|") == 1;
    BarsConcat("|", k);
    BarsConcat(u, "|" + k);
    BarsConcat("|", u + ("|" + k));
    BarsConcat(d, "|" + (u + ("|" + k)));
    BarsConcat("|", d + ("|" + (u + ("|" + k))));
    BarsConcat(s, "|" + (d + ("|" + (u + ("|" + k)))));
  }

  /** A request with an idempotency key, as its reservation id sees it. */
  datatype Keyed = Keyed(scope: string, doc: string, user: string, key: string)

  function IdText(r: Keyed): string { KeyText(r.scope, r.doc, r.user, r.key) }

  /** Scope, document and user hold no bar, and the key none but possibly its last character. */
  predicate Unshared(r: Keyed) {
    '|' !in r.scope && '|' !in r.doc && '|' !in r.user && '|' !in r.key[..if r.key == "" then 0 else |r.key| - 1]
  }

  /** Without bars in scope, document and user the three parts end at the first three bars. */
  lemma KeyTextInjective(r: Keyed, q: Keyed)
    requires '|' !in r.scope && '|' !in r.doc && '|' !in r.user
    requires '|' !in q.scope && '|' !in q.doc && '|' !in q.user && IdText(r) == IdText(q)
    ensures r == q
  {
    KeyTextParts(r.scope, r.doc, r.user, r.key);
    KeyTextParts(q.scope, q.doc, q.user, q.key);
    FirstMark('|', r.scope, r.doc + ("|" + (r.user + ("|" + r.key))), q.scope, q.doc + ("|" + (q.user + ("|" + q.key))));
    FirstMark('|', r.doc, r.user + ("|" + r.key), q.doc, q.user + ("|" + q.key));
    FirstMark('|', r.user, r.key, q.user, q.key);
  }

  lemma LastChar(r: Keyed)
    requires r.key != ""
    ensures IdText(r) != "" && IdText(r)[|IdText(r)| - 1] == r.key[|r.key| - 1]
  {
    KeyTextParts(r.scope, r.doc, r.user, r.key);
  }

  lemma BarsOfKey(k: string)
    requires k != ""
    ensures Bars(k) == Bars(k[..|k| - 1]) + (if k[|k| - 1] == '|' then 1 else 0)
  {}

  /** An unshared request is the only one with its id text. */
  lemma UnsharedIsAlone(r: Keyed, q: Keyed)
    requires Unshared(r) && r.key != "" && q.key != "" && IdText(r) == IdText(q)
    ensures q == r
  {
    BarsOfText(r.scope, r.doc, r.user, r.key);
    BarsOfText(q.scope, q.doc, q.user, q.key);
    NoBars(r.scope);
    NoBars(r.doc);
    NoBars(r.user);
    NoBars(r.key[..|r.key| - 1]);
    BarsOfKey(r.key);
    BarsOfKey(q.key);
    LastChar(r);
    LastChar(q);
    NoBars(q.scope);
    NoBars(q.doc);
    NoBars(q.user);
    KeyTextInjective(r, q);
  }

  /** A text cut at one of its bars. */
  lemma CutAtBar(s: string) returns (a: string, b: string)
    requires '|' in s
    ensures s == a + ("|" + b)
  {
    var i :| 0 <= i < |s| && s[i] == '|';
    a, b := s[..i], s[i + 1..];
  }

  /** Moving the cuts of a request one bar to the left or right keeps its id text. */
  lemma Shifted(a: string, b: string, c: string, d: string, e: string)
    ensures KeyText(a + ("|" + b), c, d, e) == KeyText(a, b, c, d + ("|" + e))
    ensures KeyText(a, b + ("|" + c), d, e) == KeyText(a, b, c, d + ("|" + e))
    ensures KeyText(a, b, c + ("|" + d), e) == KeyText(a, b, c, d + ("|" + e))
  {
    KeyTextParts(a + ("|" + b), c, d, e);
    KeyTextParts(a, b + ("|" + c), d, e);
    KeyTextParts(a, b, c + ("|" + d), e);
    KeyTextParts(a, b, c, d + ("|" + e));
  }

  lemma SharedByParts(r: Keyed) returns (q: Keyed)
    requires '|' in r.scope || '|' in r.doc || '|' in r.user
    ensures q != r && (r.key != "" ==> q.key != "") && IdText(q) == IdText(r)
  {
    if '|' in r.scope {
      var a, b := CutAtBar(r.scope);
      q := Keyed(a, b, r.doc, r.user + ("|" + r.key));
      Shifted(a, b, r.doc, r.user, r.key);
      assert |q.scope| < |r.scope|;
    } else if '|' in r.doc {
      var a, b := CutAtBar(r.doc);
      q := Keyed(r.scope, a, b, r.user + ("|" + r.key));
      Shifted(r.scope, a, b, r.user, r.key);
      assert |q.doc| < |r.doc|;
    } else {
      var a, b := CutAtBar(r.user);
      q := Keyed(r.scope, r.doc, a, b + ("|" + r.key));
      Shifted(r.scope, r.doc, a, b, r.key);
      assert |q.user| < |r.user|;
    }
  }

  /** A request with a bar in a wrong place, and another one that shares its reservation. */
  lemma SharedWith(r: Keyed) returns (q: Keyed)
    requires r.key != "" && !Unshared(r)
    ensures q.key != "" && q != r && IdText(q) == IdText(r)
  {
    if '|' in r.scope || '|' in r.doc || '|' in r.user {
      q := SharedByParts(r);
    } else {
      var n := |r.key| - 1;
      var a, b := CutAtBar(r.key[..n]);
      var rest := b + [r.key[n]];
      assert r.key == a + ("|" + rest);
      q := Keyed(r.scope + ("|" + r.doc), r.user, a, rest);
      Shifted(r.scope, r.doc, r.user, a, rest);
      assert |q.scope| > |r.scope|;
    }
  }

  /**
   * No other request with a key shares a request's reservation if and only if scope, document and
   * user hold no '|' and the key holds none before its last character.
   */
  lemma ReservationUniqueIff(r: Keyed)
    requires r.key != ""
    ensures (forall q: Keyed :: q.key != "" && IdText(q) == IdText(r) ==> q == r) <==> Unshared(r)
  {
    if Unshared(r) {
      forall q: Keyed | q.key != "" && IdText(q) == IdText(r) ensures q == r { UnsharedIsAlone(r, q); }
    } else {
      var q := SharedWith(r);
      assert q.key != "" && IdText(q) == IdText(r) && q != r;
    }
  }

  /** Bars let different requests share a reservation: one in the document id, one inside a client's key. */
  lemma BarsCollide()
    ensures KeyText("s", "d|u", "v", "k") == KeyText("s", "d", "u", "v|k")
    ensures KeyText("a", "b", "c", "d|e") == KeyText("a|b", "c", "d", "e")
  {
    assert "d|u" == "d" + ("|" + "u") && "v|k" == "v" + ("|" + "k") && "d|e" == "d" + ("|" + "e") && "a|b" == "a" + ("|" + "b");
    Shifted("s", "d", "u", "v", "k");
    Shifted("a", "b", "c", "d", "e");
  }

  /** Leaving out that a key is not empty, any bar at all is shared. */
  lemma TextUniqueIff(r: Keyed)
    ensures (forall q: Keyed :: IdText(q) == IdText(r) ==> q == r)
       <==> '|' !in r.scope && '|' !in r.doc && '|' !in r.user && '|' !in r.key
  {
    if '|' !in r.scope && '|' !in r.doc && '|' !in r.user && '|' !in r.key {
      forall q: Keyed | IdText(q) == IdText(r) ensures q == r {
        BarsOfText(r.scope, r.doc, r.user, r.key);
        BarsOfText(q.scope, q.doc, q.user, q.key);
        NoBars(r.scope);
        NoBars(r.doc);
        NoBars(r.user);
        NoBars(r.key);
        NoBars(q.scope);
        NoBars(q.doc);
        NoBars(q.user);
        KeyTextInjective(r, q);
      }
    } else if r.key != "" && !Unshared(r) {
      var q := SharedWith(r);
      assert IdText(q) == IdText(r) && q != r;
    } else if '|' in r.key {
      var a, b := CutAtBar(r.key);
      var q := Keyed(r.scope + ("|" + r.doc), r.user, a, b);
      Shifted(r.scope, r.doc, r.user, a, b);
      assert |q.scope| > |r.scope| && IdText(q) == IdText(r);
    } else {
      var q := SharedByParts(r);
      assert IdText(q) == IdText(r) && q != r;
    }
  }

  /** `body || {}`: a missing body, null, false, 0 and "" hash as the empty object. */
  function Norm(body: Option<Json>): Json {
    if body.None? || body.value == JNull || body.value == JBool(false) || body.value == JNum("0") || body.value == JStr("")
    then JObj([]) else body.value
  }

  function BodyHash(digest: string -> string, body: Option<Json>): string { digest(Print(Norm(body))) }

  /** A digest without collisions that never gives the empty text. */
  ghost predicate CollisionFree(digest: string -> string) {
    && (forall a, b {:trigger digest(a), digest(b)} :: digest(a) == digest(b) ==> a == b)
    && forall a :: digest(a) != ""
  }

  // ----- The table -----

  datatype Row = Row(hash: string, status: Option<int>, response: Option<Json>, created: nat)

  datatype Mode = NoKey | Proceed | Replay(code: int, body: Json) | Conflict

  predicate Mismatch(row: Row, hash: string) { row.hash != "" && hash != "" && row.hash != hash }

  /** What begin answers when its insert met an existing row. */
  function Decide(row: Row, hash: string): Mode {
    if Mismatch(row, hash) then Conflict
    else if row.status.Some? && row.response.Some?
    then Replay(if row.status.value == 0 then 200 else row.status.value, row.response.value)
    else Conflict
  }

  function Fresh(hash: string, now: nat): Row { Row(hash, None, None, now) }

  function Completed(rows: map<string, Row>, id: string, code: int, body: Option<Json>): map<string, Row> {
    if id in rows then rows[id := rows[id].(status := Some(code), response := body)] else rows
  }

  function Aborted(rows: map<string, Row>, id: string): map<string, Row> {
    if id in rows && rows[id].status.None? then rows - {id} else rows
  }

  predicate Swept(row: Row, cutoff: nat) { row.status.Some? && row.created < cutoff }

  function AfterSweep(rows: map<string, Row>, cutoff: nat): map<string, Row> {
    map id | id in rows && !Swept(rows[id], cutoff) :: rows[id]
  }

  datatype InsertError = NoError | Other

  /** The answer of begin: no key, a free pass on any error but a duplicate, or what the existing row decides. */
  function BeginMode(rows: map<string, Row>, key: string, id: string, hash: string, insert: InsertError, lookupFails: bool): Mode {
    if key == "" then NoKey
    else if insert == Other || id !in rows || lookupFails then Proceed
    else Decide(rows[id], hash)
  }

  function BeginRows(rows: map<string, Row>, key: string, id: string, hash: string, now: nat, insert: InsertError): map<string, Row> {
    if key != "" && insert == NoError && id !in rows then rows[id := Fresh(hash, now)] else rows
  }

  class ReservationStore {
    var rows: map<string, Row>
    const digest: string -> string

    constructor (digest: string -> string)
      ensures rows == map[] && this.digest == digest
    {
      rows := map[];
      this.digest := digest;
    }

    /** begin without anything between its two statements; any insert error but a duplicate lets the request through. */
    method Begin(key: string, id: string, body: Option<Json>, now: nat, insert: InsertError, lookupFails: bool) returns (mode: Mode)
      modifies this`rows
      ensures mode == BeginMode(old(rows), key, id, BodyHash(digest, body), insert, lookupFails)
      ensures rows == BeginRows(old(rows), key, id, BodyHash(digest, body), now, insert)
      ensures rows != old(rows) ==> mode == Proceed && id !in old(rows) && rows == old(rows)[id := Row(BodyHash(digest, body), None, None, now)]
    {
      if key == "" { return NoKey; }
      var hash := BodyHash(digest, body);
      if insert == Other { return Proceed; }
      if id !in rows {
        rows := rows[id := Fresh(hash, now)];
        return Proceed;
      }
      var row: Option<Row> := None;
      if !lookupFails { row := Some(rows[id]); }
      if row.None? { return Proceed; }
      if row.value.hash != "" && hash != "" && row.value.hash != hash { return Conflict; }
      if row.value.status.Some? && row.value.response.Some? {
        var code := row.value.status.value;
        return Replay(if code == 0 then 200 else code, row.value.response.value);
      }
      return Conflict;
    }

    method Complete(id: string, code: int, body: Option<Json>, fails: bool)
      modifies this`rows
      ensures rows == if id == "" || fails then old(rows) else Completed(old(rows), id, code, body)
      ensures id in old(rows) && id != "" && !fails ==>
                rows == old(rows)[id := Row(old(rows)[id].hash, Some(code), body, old(rows)[id].created)]
    {
      if id == "" || fails { return; }
      if id in rows { rows := rows[id := rows[id].(status := Some(code), response := body)]; }
    }

    method Abort(id: string, fails: bool)
      modifies this`rows
      ensures rows == if id == "" || fails then old(rows) else Aborted(old(rows), id)
      ensures id in old(rows) && old(rows)[id].status.Some? ==> rows == old(rows)
      ensures id in old(rows) && old(rows)[id].status.None? && id != "" && !fails ==> rows == old(rows) - {id}
    {
      if id == "" || fails { return; }
      if id in rows && rows[id].status.None? { rows := rows - {id}; }
    }

    /** cleanupIdempotencyKeys: completed rows older than the horizon go, reservations in progress stay. */
    method Sweep(cutoff: nat) returns (deleted: nat)
      modifies this`rows
      ensures forall id :: id in rows <==> id in old(rows) && (old(rows)[id].status.None? || old(rows)[id].created >= cutoff)
      ensures forall id | id in rows :: rows[id] == old(rows)[id]
      ensures rows == AfterSweep(old(rows), cutoff)
      ensures deleted == |old(rows)| - |rows|
      ensures forall id | id in old(rows) && old(rows)[id].status.None? :: id in rows && rows[id] == old(rows)[id]
    {
      var kept := AfterSweep(rows, cutoff);
      assert rows.Keys == kept.Keys + (rows.Keys - kept.Keys);
      assert |rows.Keys| == |kept.Keys| + |rows.Keys - kept.Keys|;
      deleted := |rows| - |kept|;
      rows := kept;
    }
  }

  // ----- Payloads as the client sends them -----

  /** A body that JavaScript takes for false under `body || {}`. */
  predicate Falsy(body: Option<Json>) {
    body == None || body == Some(JNull) || body == Some(JBool(false)) || body == Some(JNum("0")) || body == Some(JStr(""))
  }

  ghost predicate WellFormedBody(body: Option<Json>) { body.Some? ==> WellFormed(body.value) }

  /** The same payload: both bodies present and equal up to key order; a falsy one stands for the empty object. */
  ghost predicate SamePayload(b0: Option<Json>, b1: Option<Json>) {
    if Falsy(b0) then Falsy(b1) || b1 == Some(JObj([]))
    else if Falsy(b1) then b0 == Some(JObj([]))
    else Same(b0.value, b1.value)
  }

  lemma SameAsEmpty(j: Json)
    ensures Same(JObj([]), j) <==> j == JObj([])
    ensures Same(j, JObj([])) <==> j == JObj([])
  {
    if j.JObj? && j.members != [] {
      assert j.members[0].key in Keys(j.members);
      assert j.members[0].key !in Keys([]);
    }
  }

  /** Storing a payload's hash and meeting it again takes the mismatch branch exactly for a different payload. */
  lemma MismatchMeansDifferentPayload(digest: string -> string, b0: Option<Json>, b1: Option<Json>, now: nat)
    requires CollisionFree(digest) && WellFormedBody(b0) && WellFormedBody(b1)
    ensures Mismatch(Fresh(BodyHash(digest, b0), now), BodyHash(digest, b1)) <==> !SamePayload(b0, b1)
  {
    StableStringifyCanonical(Norm(b0), Norm(b1));
    assert digest(Print(Norm(b0))) != "" && digest(Print(Norm(b1))) != "";
    SameAsEmpty(Norm(b0));
    SameAsEmpty(Norm(b1));
    if Falsy(b0) { assert Norm(b0) == JObj([]); }
    if Falsy(b1) { assert Norm(b1) == JObj([]); }
  }

  /**
   * A request reserves an unused id, its answer is stored, and a second request comes under the same
   * id: the same payload gets the stored answer, any other one a conflict.
   */
  lemma SecondBegin(digest: string -> string, rows: map<string, Row>, key: string, id: string, b0: Option<Json>,
                    b1: Option<Json>, now: nat, code: int, answer: Json)
    requires CollisionFree(digest) && WellFormedBody(b0) && WellFormedBody(b1) && key != "" && id !in rows
    ensures BeginMode(rows, key, id, BodyHash(digest, b0), NoError, false) == Proceed
    ensures var taken := BeginRows(rows, key, id, BodyHash(digest, b0), now, NoError);
            var answered := Completed(taken, id, code, Some(answer));
            && BeginMode(taken, key, id, BodyHash(digest, b1), NoError, false) == Conflict
            && BeginMode(answered, key, id, BodyHash(digest, b1), NoError, false)
               == (if SamePayload(b0, b1) then Replay(if code == 0 then 200 else code, answer) else Conflict)
            && answered == rows[id := answered[id]]
  {
    MismatchMeansDifferentPayload(digest, b0, b1, now);
    var taken := BeginRows(rows, key, id, BodyHash(digest, b0), now, NoError);
    assert taken == rows[id := Fresh(BodyHash(digest, b0), now)];
  }

  /** Only a key with a readable row can be refused or replayed; a payload without a hash is never refused for it. */
  lemma FreePasses(rows: map<string, Row>, key: string, id: string, hash: string, insert: InsertError, lookupFails: bool)
    ensures BeginMode(rows, key, id, hash, insert, lookupFails) == NoKey <==> key == ""
    ensures BeginMode(rows, key, id, hash, insert, lookupFails) == Proceed
       <==> key != "" && (insert == Other || id !in rows || lookupFails)
    ensures BeginMode(rows, key, id, hash, insert, lookupFails) == Conflict ==>
              id in rows && (rows[id].status.None? || rows[id].response.None? || (hash != "" && rows[id].hash != "" && rows[id].hash != hash))
  {}
}
