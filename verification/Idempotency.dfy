/** Replaying the response to a request whose idempotency key has been seen, called one request at a time. */
module Idempotency {
  import opened Options
  import opened Text
  import opened CanonicalJson

  const CREATED: nat := 201

  /** The fingerprint is the canonical text itself; its hash is taken to be free of collisions. */
  datatype Record<T> = Record(fingerprint: Text, response: T, statusCode: nat)

  datatype Answer<T> =
    | Replayed(response: T, statusCode: nat)
    | Made(response: T, statusCode: nat)
    | KeyReused
    | CreationFailed

  /** A request, and what creating the resource would yield; None if it would throw. */
  datatype Call<T> = Call(key: Text, body: Json, made: Option<T>)

  function AnswerTo<T>(records: map<Text, Record<T>>, call: Call<T>): Answer<T> {
    if call.key in records then
      var known := records[call.key];
      if known.fingerprint == Canonicalize(call.body) then Replayed(known.response, known.statusCode) else KeyReused
    else if call.made.Some? then Made(call.made.value, CREATED)
    else CreationFailed
  }

  function RecordsAfter<T>(records: map<Text, Record<T>>, call: Call<T>): map<Text, Record<T>> {
    if AnswerTo(records, call).Made? then
      records[call.key := Record(Canonicalize(call.body), call.made.value, CREATED)]
    else records
  }

  class IdempotencyRecords<T> {
    var records: map<Text, Record<T>>

    constructor ()
      ensures records == map[]
    {
      records := map[];
    }

    method Save(key: Text, body: Json, response: T, statusCode: nat)
      modifies this
      ensures records == old(records)[key := Record(Canonicalize(body), response, statusCode)]
    {
      records := records[key := Record(Canonicalize(body), response, statusCode)];
    }

    /** `created` reports whether the resource was asked to be created, which only an unknown key does. */
    method Handle(call: Call<T>) returns (answer: Answer<T>, created: bool)
      modifies this
      ensures answer == AnswerTo(old(records), call)
      ensures records == RecordsAfter(old(records), call)
      ensures created <==> call.key !in old(records)
      ensures call.key !in old(records) && call.made.Some? ==>
                && answer == Made(call.made.value, 201)
                && records == old(records)[call.key := Record(Canonicalize(call.body), call.made.value, 201)]
      ensures call.key !in old(records) && call.made.None? ==> answer == CreationFailed
      ensures call.key in old(records) ==>
                var known := old(records)[call.key];
                answer == if known.fingerprint == Canonicalize(call.body) then Replayed(known.response, known.statusCode)
                          else KeyReused
      ensures !answer.Made? ==> records == old(records)
    {
      created := false;
      if call.key in records {
        var known := records[call.key];
        if known.fingerprint != Canonicalize(call.body) {
          return KeyReused, false;
        }
        return Replayed(known.response, known.statusCode), false;
      }
      created := true;
      if call.made.None? {
        return CreationFailed, true;
      }
      Save(call.key, call.body, call.made.value, CREATED);
      answer := Made(call.made.value, CREATED);
    }
  }

  // ----- sequences of requests -----

  function RecordsOf<T>(calls: seq<Call<T>>): map<Text, Record<T>> {
    if calls == [] then map[]
    else RecordsAfter(RecordsOf(calls[..|calls| - 1]), calls[|calls| - 1])
  }

  function AnswerAt<T>(calls: seq<Call<T>>, i: nat): Answer<T>
    requires i < |calls|
  {
    AnswerTo(RecordsOf(calls[..i]), calls[i])
  }

  ghost predicate CreatedBefore<T>(calls: seq<Call<T>>, key: Text, i: nat)
    requires i <= |calls|
  {
    exists j :: 0 <= j < i && calls[j].key == key && AnswerAt(calls, j).Made?
  }

  lemma {:induction false} KeyIsKnownIffCreated<T>(calls: seq<Call<T>>, key: Text, i: nat)
    requires i <= |calls|
    ensures key in RecordsOf(calls[..i]) <==> CreatedBefore(calls, key, i)
  {
    if i > 0 {
      KeyIsKnownIffCreated(calls, key, i - 1);
      assert calls[..i][..i - 1] == calls[..i - 1] && calls[..i][i - 1] == calls[i - 1];
      assert CreatedBefore(calls, key, i) <==>
        CreatedBefore(calls, key, i - 1) || (calls[i - 1].key == key && AnswerAt(calls, i - 1).Made?);
    }
  }

  /**
   A request creates its resource exactly if its creation succeeds and no earlier request under the key has created one;
   it is then answered with what was created, as 201. A creation that throws leaves the key free.
   */
  lemma FirstSuccessCreates<T>(calls: seq<Call<T>>, i: nat)
    requires i < |calls|
    ensures AnswerAt(calls, i).Made? <==> calls[i].made.Some? && !CreatedBefore(calls, calls[i].key, i)
    ensures AnswerAt(calls, i).Made? ==> AnswerAt(calls, i) == Made(calls[i].made.value, 201)
    ensures AnswerAt(calls, i).CreationFailed? <==> calls[i].made.None? && !CreatedBefore(calls, calls[i].key, i)
  {
    KeyIsKnownIffCreated(calls, calls[i].key, i);
  }

  lemma {:induction false} RecordStays<T>(calls: seq<Call<T>>, i: nat, j: nat)
    requires i < j <= |calls| && AnswerAt(calls, i).Made?
    ensures calls[i].key in RecordsOf(calls[..j])
    ensures RecordsOf(calls[..j])[calls[i].key] == Record(Canonicalize(calls[i].body), AnswerAt(calls, i).response, CREATED)
  {
    assert calls[..j][..j - 1] == calls[..j - 1] && calls[..j][j - 1] == calls[j - 1];
    if i < j - 1 {
      RecordStays(calls, i, j - 1);
    }
  }

  /**
   After a request has created its resource, every later request with that key gets the same response if its body is
   the same JSON value, and a refusal otherwise. Nothing is ever created twice under one key.
   */
  lemma LaterRequestsReplay<T>(calls: seq<Call<T>>, i: nat, j: nat)
    requires i < j < |calls| && calls[i].key == calls[j].key && AnswerAt(calls, i).Made?
    requires Valid(calls[i].body) && Valid(calls[j].body)
    ensures AnswerAt(calls, j) ==
              if Same(calls[i].body, calls[j].body) then Replayed(AnswerAt(calls, i).response, 201) else KeyReused
  {
    RecordStays(calls, i, j);
    CanonicalTextDecidesSameness(calls[i].body, calls[j].body);
  }
}
