/** The certificate-request API route: a JSON file holding an array of request
    records. POST validates a submission and appends a pending record; GET
    returns the whole array. The file is modelled by its parsed content. */
module RequestStore {
  import opened Wrappers
  import opened Json
  import Text

  /** A submission carries a truthy value for each of these six fields. */
  predicate HasRequiredFields(body: Value) {
    && Truthy(Get(body, "studentName"))
    && Truthy(Get(body, "universityName"))
    && Truthy(Get(body, "yearOfGraduation"))
    && Truthy(Get(body, "degree"))
    && Truthy(Get(body, "major"))
    && Truthy(Get(body, "studentAddress"))
  }

  datatype PostReply =
    | Submitted(requestId: string)   // 200, reports the generated id
    | MissingFields                  // 400
    | ServerError                    // 500: unreadable body, or a file that is not an array

  function HttpStatus(reply: PostReply): int {
    match reply
    case Submitted(_) => 200
    case MissingFields => 400
    case ServerError => 500
  }

  /** `req_<Date.now()>_<random suffix>`. */
  function RequestId(now: nat, suffix: string): string {
    "req_" + Text.NatToString(now) + "_" + suffix
  }

  /** The record `{ id: requestId, ...body, status: 'pending', createdAt }`:
      the client's fields override the generated id but not status or createdAt. */
  function NewRecord(body: map<string, Value>, requestId: string, createdAt: string): (r: map<string, Value>)
    ensures r.Keys == body.Keys + {"id", "status", "createdAt"}
    ensures r["status"] == Str("pending") && r["createdAt"] == Str(createdAt)
    ensures r["id"] == (if "id" in body then body["id"] else Str(requestId))
    ensures forall k :: k in body && k != "status" && k != "createdAt" ==> r[k] == body[k]
  {
    map["id" := Str(requestId)] + body + map["status" := Str("pending"), "createdAt" := Str(createdAt)]
  }

  /** Validation, record construction and append on the list of stored records.
      `body` is the parsed request body; `null` makes the field check throw. */
  function Submit(store: seq<Value>, body: Value, now: nat, suffix: string, createdAt: string): (r: (PostReply, seq<Value>))
    ensures r.0.Submitted? <==> HasRequiredFields(body)
    ensures r.0.MissingFields? <==> !body.Null? && !body.Undefined? && !HasRequiredFields(body)
    ensures !r.0.Submitted? ==> r.1 == store
    ensures r.0.Submitted? ==>
              && body.Obj?
              && r.0.requestId == RequestId(now, suffix)
              && r.1 == store + [Obj(NewRecord(body.fields, RequestId(now, suffix), createdAt))]
  {
    if body.Null? || body.Undefined? then (ServerError, store)
    else if !HasRequiredFields(body) then (MissingFields, store)
    else
      var id := RequestId(now, suffix);
      (Submitted(id), store + [Obj(NewRecord(Fields(body), id, createdAt))])
  }

  /** `readRequests`: content that is missing or does not parse reads as `[]`. */
  function ReadRequests(file: Option<Value>): Value {
    file.GetOr(Arr([]))
  }

  /** POST /api/certificate-requests. `body` is None when the body is not JSON;
      `file` is None when the request file is missing or not JSON; `writeOk` is
      whether writing the file back succeeded. Returns the reply and the file
      content afterwards. */
  function Post(file: Option<Value>, body: Option<Value>, now: nat, suffix: string, createdAt: string, writeOk: bool): (r: (PostReply, Option<Value>))
    ensures !r.0.Submitted? ==> r.1 == file
    ensures r.0.MissingFields? <==> body.Some? && !body.value.Null? && !body.value.Undefined? && !HasRequiredFields(body.value)
    ensures r.0.Submitted? <==> body.Some? && HasRequiredFields(body.value) && ReadRequests(file).Arr? && writeOk
    ensures r.0.Submitted? ==>
              && r.1 == Some(Arr(ReadRequests(file).elems + [Obj(NewRecord(body.value.fields, r.0.requestId, createdAt))]))
              && r.0.requestId == RequestId(now, suffix)
  {
    if body.None? then (ServerError, file)
    else
      var (reply, _) := Submit([], body.value, now, suffix, createdAt);
      if !reply.Submitted? then (reply, file)
      else match ReadRequests(file)
        case Arr(items) =>
          var (_, items') := Submit(items, body.value, now, suffix, createdAt);
          if writeOk then (reply, Some(Arr(items'))) else (ServerError, file)
        case _ => (ServerError, file)
  }

  datatype GetReply =
    | Listed(requests: Value)   // 200, the stored content as read
    | ListFailed                // 500

  /** Whether reading `.length` of the value throws: it does for `null` and
      `undefined` only. */
  predicate LengthThrows(v: Value) {
    v.Null? || v.Undefined?
  }

  /** GET /api/certificate-requests: the stored content as read, after logging
      its `length`, which throws for a file holding `null`. */
  function GetRequests(file: Option<Value>): (r: GetReply)
    ensures r.ListFailed? <==> file == Some(Null) || file == Some(Undefined)
    ensures r.Listed? ==> r.requests == (if file.Some? then file.value else Arr([]))
  {
    var requests := ReadRequests(file);
    if LengthThrows(requests) then ListFailed else Listed(requests)
  }

  /** A file that is missing or does not parse is served as the empty list, not
      an error, and so is one holding an empty array; one holding `null` is not. */
  lemma UnreadableFileIsEmpty()
    ensures GetRequests(None) == GetRequests(Some(Arr([]))) == Listed(Arr([]))
    ensures GetRequests(Some(Null)) == ListFailed
  {
  }

  /** After a successful POST, GET returns every record it returned before, in
      the same order, followed by the new pending record. */
  lemma GetAfterPost(file: Option<Value>, body: Option<Value>, now: nat, suffix: string, createdAt: string, writeOk: bool)
    requires Post(file, body, now, suffix, createdAt, writeOk).0.Submitted?
    ensures GetRequests(file).Listed? && GetRequests(Post(file, body, now, suffix, createdAt, writeOk).1).Listed?
    ensures var after := GetRequests(Post(file, body, now, suffix, createdAt, writeOk).1).requests;
            && after.Arr?
            && |after.elems| == |GetRequests(file).requests.elems| + 1
            && after.elems[..|after.elems| - 1] == GetRequests(file).requests.elems
            && Get(after.elems[|after.elems| - 1], "status") == Str("pending")
            && Get(after.elems[|after.elems| - 1], "createdAt") == Str(createdAt)
  {
  }

  /** One POST attempt, with the clock and random values it would read. */
  datatype Submission = Submission(body: Value, now: nat, suffix: string, createdAt: string)

  /** The store after a series of submissions handled one after another. */
  function SubmitAll(store: seq<Value>, subs: seq<Submission>): seq<Value>
    decreases |subs|
  {
    if |subs| == 0 then store
    else
      var s := subs[0];
      SubmitAll(Submit(store, s.body, s.now, s.suffix, s.createdAt).1, subs[1..])
  }

  /** Number of submissions in `subs` that pass validation. */
  function Accepted(subs: seq<Submission>): nat {
    if |subs| == 0 then 0
    else (if HasRequiredFields(subs[0].body) then 1 else 0) + Accepted(subs[1..])
  }

  /** The store is append-only: any series of submissions keeps every earlier
      record in place and grows the store by exactly the accepted ones. */
  lemma {:induction false} SubmitAllAppendOnly(store: seq<Value>, subs: seq<Submission>)
    ensures store <= SubmitAll(store, subs)
    ensures |SubmitAll(store, subs)| == |store| + Accepted(subs)
    decreases |subs|
  {
    if |subs| > 0 {
      var s := subs[0];
      var next := Submit(store, s.body, s.now, s.suffix, s.createdAt).1;
      SubmitAllAppendOnly(next, subs[1..]);
      assert store <= next;
    }
  }
}
