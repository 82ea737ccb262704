/** The route handlers of backend/server.js over the `Contact` collection, held
    as a map from id to record in one object. `POST /api/contact` validates,
    saves, then mails; the two admin routes sit behind `adminAuth`. */
module ContactApi {
  import opened Wrappers
  import opened JsText
  import opened ServerValidation
  import opened ContactModel
  import opened Admin

  const MsgStatusInvalid := "Statut invalide"
  const MsgNotFound := "Contact non trouvé"

  class ContactStore {
    /** The `Contact` collection. */
    var records: map<Id, Contact>
    /** The id the next saved document receives. */
    var nextId: Id
    /** Ids of the records whose notification mail went out, in order. */
    var notified: seq<Id>

    ghost predicate Valid()
      reads this
    {
      && Dense(records, nextId)
      && forall k :: 0 <= k < |notified| ==> notified[k] in records
    }

    constructor ()
      ensures Valid() && records == map[] && nextId == 0 && notified == []
    {
      records, nextId, notified := map[], 0, [];
    }

    /** `POST /api/contact`. A rejected or crashed validation writes nothing and
        sends nothing; otherwise the data goes on to be saved and mailed. */
    method SubmitContact(v: Validator, b: Submission, meta: RequestMeta, storeUp: bool, mailUp: bool)
      returns (r: Response<string>)
      requires Valid()
      modifies this
      ensures Valid()
      ensures var verdict := CheckSubmission(v, b);
        && (verdict.Rejected? ==> r == Err(400, ErrorMessage(verdict.problem)) && unchanged(this))
        && (verdict.Crashed? ==> r == Err(500, MsgInternal) && unchanged(this))
        && (verdict.Accepted? ==> Saved(v, verdict.data, meta, storeUp, mailUp, r))
    {
      var verdict := CheckSubmission(v, b);
      match verdict {
        case Rejected(problem) =>
          r := Err(400, ErrorMessage(problem));
        case Crashed =>
          r := Err(500, MsgInternal);
        case Accepted(d) =>
          r := SaveAndNotify(v, d, meta, storeUp, mailUp);
      }
    }

    /** What saving validated data `d` and then mailing does to the store, and
        the reply: a refused or failed save changes nothing and answers 500; a
        successful one adds the `pending` record under the next id, and a mail
        failure after it still answers 500 while the record stays. */
    twostate predicate Saved(v: Validator, d: Sanitized, meta: RequestMeta, storeUp: bool, mailUp: bool,
                             new r: Response<string>)
      reads this
    {
      if !(storeUp && SchemaAccepts(v, d)) then
        r == Err(500, MsgInternal) && unchanged(this)
      else
        && records == old(records)[old(nextId) := ToRecord(v, d, old(nextId), meta).value]
        && nextId == old(nextId) + 1
        && notified == (if mailUp then old(notified) + [old(nextId)] else old(notified))
        && r == (if mailUp then Ok(MsgSuccess) else Err(500, MsgInternal))
    }

    /** `await contactSubmission.save()` followed by `await transporter.sendMail(...)`,
        inside the handler's `try`. */
    method SaveAndNotify(v: Validator, d: Sanitized, meta: RequestMeta, storeUp: bool, mailUp: bool)
      returns (r: Response<string>)
      requires Valid()
      modifies this
      ensures Valid() && Saved(v, d, meta, storeUp, mailUp, r)
    {
      var doc := ToRecord(v, d, nextId, meta);
      if doc.None? || !storeUp {
        r := Err(500, MsgInternal);
        return;
      }
      DenseExtend(records, nextId, doc.value);
      records := records[nextId := doc.value];
      nextId := nextId + 1;
      if !mailUp {
        r := Err(500, MsgInternal);
        return;
      }
      notified := notified + [doc.value.id];
      r := Ok(MsgSuccess);
    }

    /** `GET /api/admin/contacts`: the gate, then the listing; the store is only read. */
    method ListContacts(header: Option<string>, env: Option<string>, pageQ: Option<int>, limitQ: Option<int>, storeUp: bool)
      returns (r: Response<Listing>)
      requires Valid()
      ensures AdminAuth(header, env).Refused? ==>
        r == Err(AdminAuth(header, env).status, AdminAuth(header, env).error)
      ensures AdminAuth(header, env).Granted? ==> r == ListPage(records, nextId, pageQ, limitQ, storeUp)
    {
      var gate := AdminAuth(header, env);
      if gate.Refused? {
        return Err(gate.status, gate.error);
      }
      r := ListPage(records, nextId, pageQ, limitQ, storeUp);
    }

    /** `PATCH /api/admin/contacts/:id/status`. `idParam` is `None` when the path
        segment is not a well-formed id, which makes `findByIdAndUpdate` throw.
        Only the status of the one record changes, and only on success. */
    method UpdateStatus(header: Option<string>, env: Option<string>, idParam: Option<Id>, status: JsValue, storeUp: bool)
      returns (r: Response<Contact>)
      requires Valid()
      modifies this
      ensures Valid()
      ensures nextId == old(nextId) && notified == old(notified)
      ensures AdminAuth(header, env).Refused? ==>
        r == Err(AdminAuth(header, env).status, AdminAuth(header, env).error) && records == old(records)
      ensures AdminAuth(header, env).Granted? && ParseStatus(status).None? ==>
        r == Err(400, MsgStatusInvalid) && records == old(records)
      ensures AdminAuth(header, env).Granted? && ParseStatus(status).Some? && (idParam.None? || !storeUp) ==>
        r == Err(500, MsgServerError) && records == old(records)
      ensures (AdminAuth(header, env).Granted? && ParseStatus(status).Some? && idParam.Some? && storeUp
        && idParam.value !in old(records)) ==>
        r == Err(404, MsgNotFound) && records == old(records)
      ensures (AdminAuth(header, env).Granted? && ParseStatus(status).Some? && idParam.Some? && storeUp
        && idParam.value in old(records)) ==>
        && records == old(records)[idParam.value := old(records)[idParam.value].(status := ParseStatus(status).value)]
        && r == Ok(records[idParam.value])
    {
      var gate := AdminAuth(header, env);
      if gate.Refused? {
        return Err(gate.status, gate.error);
      }
      var st := ParseStatus(status);
      if st.None? {
        return Err(400, MsgStatusInvalid);
      }
      if idParam.None? || !storeUp {
        return Err(500, MsgServerError);
      }
      var id := idParam.value;
      if id !in records {
        return Err(404, MsgNotFound);
      }
      DenseReplace(records, nextId, id, records[id].(status := st.value));
      records := records[id := records[id].(status := st.value)];
      r := Ok(records[id]);
    }
  }

  /** A valid submission is listed as `pending`, on a first page holding it
      alone; after an administrator sets it to `enrolled`, a later listing of
      the same page shows it enrolled, with nothing else about it changed. */
  method SubmitThenEnrol(v: Validator, b: Submission, meta: RequestMeta, env: Option<string>)
    returns (shownBefore: seq<Contact>, shownAfter: seq<Contact>, before: Contact, after: Contact)
    requires CheckSubmission(v, b).Accepted? && SchemaAccepts(v, CheckSubmission(v, b).data)
    ensures before == ToRecord(v, CheckSubmission(v, b).data, 0, meta).value
    ensures before.status == Pending && after == before.(status := Enrolled)
    ensures Dense(map[0 := before], 1) && Dense(map[0 := after], 1)
    ensures shownBefore == ListPage(map[0 := before], 1, Some(1), Some(20), true).body.contacts == [before]
    ensures shownAfter == ListPage(map[0 := after], 1, Some(1), Some(20), true).body.contacts == [after]
  {
    var store := new ContactStore();
    var posted := store.SubmitContact(v, b, meta, true, true);
    assert store.nextId == 1 && store.records[0].status == Pending;
    shownBefore, shownAfter, before, after := ListEnrolList(store, env);
    SoleRecordListed(before);
    SoleRecordListed(after);
  }

  /** The store holding just `c` under id 0 is dense, and its default first
      page lists `c` alone. */
  lemma SoleRecordListed(c: Contact)
    requires c.id == 0
    ensures Dense(map[0 := c], 1)
    ensures ListPage(map[0 := c], 1, Some(1), Some(20), true).body.contacts == [c]
  {
    FirstPageShowsSoleRecord(map[0 := c]);
  }

  /** With a single stored record, the default first page lists it and nothing else. */
  lemma FirstPageShowsSoleRecord(records: map<Id, Contact>)
    requires Dense(records, 1)
    ensures ListPage(records, 1, Some(1), Some(20), true).Ok?
    ensures ListPage(records, 1, Some(1), Some(20), true).body.contacts == [records[0]]
  {
    OrderedStore(records, 1);
    ListPageShape(records, 1, 1, 20);
    var ordered := Ordered(records, 1);
    assert ordered == [records[0]] by {
      assert ordered[0] in ordered;
    }
    assert Window(ordered, 0, 20) == ordered;
  }

  /** The moderation half of `SubmitThenEnrol`, on a store holding one pending record. */
  method ListEnrolList(store: ContactStore, env: Option<string>)
    returns (shownBefore: seq<Contact>, shownAfter: seq<Contact>, before: Contact, after: Contact)
    requires store.Valid() && store.nextId == 1 && store.records[0].status == Pending
    modifies store
    ensures before == old(store.records[0]) && store.records == old(store.records)[0 := after]
    ensures store.Valid() && store.nextId == 1 && store.notified == old(store.notified)
    ensures shownBefore == ListPage(old(store.records), 1, Some(1), Some(20), true).body.contacts == [before]
    ensures shownAfter == ListPage(store.records, 1, Some(1), Some(20), true).body.contacts == [after]
    ensures before.status == Pending && after == before.(status := Enrolled)
  {
    var header := Some(BearerPrefix + ConfiguredToken(env));
    AdminAuthTable(header, env);
    FirstPageShowsSoleRecord(store.records);
    var listed := store.ListContacts(header, env, Some(1), Some(20), true);
    shownBefore, before := listed.body.contacts, store.records[0];
    ghost var held := store.records;
    ParseStatusInvertsName(Str("enrolled"), Enrolled);
    var updated := store.UpdateStatus(header, env, Some(0), Str("enrolled"), true);
    assert store.records == held[0 := before.(status := Enrolled)];
    FirstPageShowsSoleRecord(store.records);
    listed := store.ListContacts(header, env, Some(1), Some(20), true);
    shownAfter, after := listed.body.contacts, store.records[0];
  }
}
