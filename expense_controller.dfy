/**
 * The expense handlers of backend/controllers/expenseController.js over an in-memory store that
 * maps record ids to stored records. Title, category and the amount's text are kept only as
 * `Encryption.Encrypt` output; the date and the owning user are kept as given. The caller's
 * identity (`req.userId`), each new record's id and the IVs the three `encrypt` calls draw are
 * inputs.
 */
module ExpenseController {
  import opened Wrappers
  import opened Bytes
  import Cbc
  import opened Encryption
  import JsString

  type Id = string
  type UserId = string

  /** A field of the JSON request body: absent (or null), a string, an integral number, any
      other JSON value (a boolean, an object or an array) with the text its `toString()` gives
      (`"true"`, `"[object Object]"`, `"1,2"`), or an object or array whose `toString()` throws
      (an own `toString` key that is not a function, such as `{"toString": 1}`, or an array
      holding such an object). */
  datatype BodyValue = Missing | Str(text: string) | Num(n: int) | Other(shown: string) | Unprintable

  datatype Body = Body(title: BodyValue, category: BodyValue, amount: BodyValue, date: Option<string>)

  /** A stored expense: what the document store holds. */
  datatype StoredExpense = StoredExpense(user: UserId, title: string, category: string, amount: string, date: Option<string>)

  /** The encrypted fields computed from a body, before anything is stored. */
  datatype SealedFields = SealedFields(title: string, category: string, amount: string, date: Option<string>)

  /** An expense as a response shows it; `amount` is the text that `parseFloat` reads. */
  datatype ExpenseView = ExpenseView(id: Id, user: UserId, title: string, category: string, amount: string, date: Option<string>)

  datatype Reply =
    | Expense(view: ExpenseView)
    | Expenses(views: map<Id, ExpenseView>)
    | Message(message: string)
    | ServerError(status: nat, error: string)

  /** The IVs drawn by the `encrypt` calls for title, category and amount, in that order. */
  datatype Ivs = Ivs(title: Cbc.Block, category: Cbc.Block, amount: Cbc.Block)

  const CreateFailed: Reply := ServerError(500, "Failed to create expense")
  const FetchFailed: Reply := ServerError(500, "Failed to fetch expenses")
  const UpdateFailed: Reply := ServerError(500, "Failed to update expense")
  const Deleted: Reply := Message("Deleted")

  /** `amount.toString()`: a string as it is, a number as its decimal text, another value as
      its own text; an absent value, or one whose `toString` cannot be called, throws. */
  function ToText(v: BodyValue): (r: Option<string>)
    ensures r.None? <==> v.Missing? || v.Unprintable?
    ensures v.Str? ==> r == Some(v.text)
    ensures v.Num? ==> r.Some? && JsString.ParseInteger(r.value) == Some(v.n)
    ensures v.Other? ==> r == Some(v.shown)
  {
    match v
    case Missing => None
    case Str(t) => Some(t)
    case Num(n) => JsString.ParseIntegerToString(n); Some(JsString.IntegerToString(n))
    case Other(shown) => Some(shown)
    case Unprintable => None
  }

  /** `encrypt(v)` on a body field: only strings can be enciphered, anything else throws. */
  function SealText(c: Cbc.BlockCipher, key: seq<byte>, iv: Cbc.Block, v: BodyValue): (r: Option<string>)
    ensures r.Some? <==> v.Str? && |key| == KeyLength
    ensures r.Some? && Cbc.Inverts(c) ==> Decrypt(c, key, r.value) == Ok(v.text)
  {
    if !v.Str? then None
    else
      var e := Encrypt(c, key, iv, v.text);
      if e.Err? then None
      else
        assert Cbc.Inverts(c) ==> Decrypt(c, key, e.value) == Ok(v.text) by {
          if Cbc.Inverts(c) { DecryptEncrypt(c, key, iv, v.text); }
        }
        Some(e.value)
  }

  /** The encryptions a create or an update computes before it touches the store, in source order
      (title, category, then `amount.toString()`); any of them throwing fails the whole request.
      Every sealed field decrypts to the field as given (untrimmed), and the date is not encrypted. */
  function SealBody(c: Cbc.BlockCipher, key: seq<byte>, ivs: Ivs, body: Body): (r: Option<SealedFields>)
    ensures r.Some? <==> body.title.Str? && body.category.Str? && ToText(body.amount).Some? && |key| == KeyLength
    ensures r.Some? ==> r.value.date == body.date
    ensures r.Some? && Cbc.Inverts(c) ==>
              && Decrypt(c, key, r.value.title) == Ok(body.title.text)
              && Decrypt(c, key, r.value.category) == Ok(body.category.text)
              && Decrypt(c, key, r.value.amount) == Ok(ToText(body.amount).value)
  {
    var title := SealText(c, key, ivs.title, body.title);
    var category := SealText(c, key, ivs.category, body.category);
    var amountText := ToText(body.amount);
    if title.None? || category.None? || amountText.None? then None
    else
      var amount := SealText(c, key, ivs.amount, Str(amountText.value));
      Some(SealedFields(title.value, category.value, amount.value, body.date))
  }

  /** The response to a successful create or update. Title and category go through `trim()`:
      each is a slice of what was sent with only white space cut off, has no white space at
      either end, and equals what was sent exactly when that had none. The amount is not
      trimmed. */
  function Echo(id: Id, user: UserId, body: Body, date: Option<string>): (v: ExpenseView)
    requires body.title.Str? && body.category.Str? && ToText(body.amount).Some?
    ensures v.id == id && v.user == user && v.date == date && v.amount == ToText(body.amount).value
    ensures (exists i: nat :: JsString.TrimmedAt(body.title.text, v.title, i))
         && (exists i: nat :: JsString.TrimmedAt(body.category.text, v.category, i))
    ensures JsString.NoEdgeSpace(v.title) && JsString.NoEdgeSpace(v.category)
    ensures v.title == body.title.text <==> JsString.NoEdgeSpace(body.title.text)
    ensures v.category == body.category.text <==> JsString.NoEdgeSpace(body.category.text)
  {
    JsString.TrimFixed(body.title.text);
    JsString.TrimFixed(body.category.text);
    ExpenseView(id, user, JsString.Trim(body.title.text), JsString.Trim(body.category.text),
                ToText(body.amount).value, date)
  }

  /** `decrypt` under the configured cipher and key. */
  function Decipher(c: Cbc.BlockCipher, key: seq<byte>): (string -> Result<string, CipherError>)
  {
    s => Decrypt(c, key, s)
  }

  /** One stored record as `getExpenses` returns it: title, category and amount decrypted in
      that order, the first failure failing the record. */
  function Open(decrypt: string -> Result<string, CipherError>, id: Id, rec: StoredExpense): Option<ExpenseView>
  {
    match (decrypt(rec.title), decrypt(rec.category), decrypt(rec.amount))
    case (Ok(title), Ok(category), Ok(amount)) => Some(ExpenseView(id, rec.user, title, category, amount, rec.date))
    case _ => None
  }

  /** The records `user` owns: what the `Expense.find({ user })` query selects. */
  function Owned(records: map<Id, StoredExpense>, user: UserId): map<Id, StoredExpense>
  {
    map id | id in records && records[id].user == user :: records[id]
  }

  /** Decrypting every selected record, as the `map` of `getExpenses` does: all of them, or a
      500 reply when any one of them fails. */
  function OpenAll(owned: map<Id, StoredExpense>, decrypt: string -> Result<string, CipherError>): (r: Reply)
    ensures r.Expenses? || r == FetchFailed
    ensures r.Expenses? <==> forall id | id in owned :: Open(decrypt, id, owned[id]).Some?
    ensures r.Expenses? ==> && r.views.Keys == owned.Keys
                            && forall id | id in r.views :: Some(r.views[id]) == Open(decrypt, id, owned[id])
  {
    if exists id | id in owned :: Open(decrypt, id, owned[id]).None? then FetchFailed
    else Expenses(map id | id in owned :: Open(decrypt, id, owned[id]).value)
  }

  /** `getExpenses`: every record the caller owns, decrypted, or a 500 reply when any one of them
      fails to decrypt. */
  function Fetch(records: map<Id, StoredExpense>, decrypt: string -> Result<string, CipherError>, user: UserId): (r: Reply)
    ensures r.Expenses? || r == FetchFailed
    ensures r.Expenses? ==> forall id :: id in r.views <==> id in records && records[id].user == user
  {
    OpenAll(Owned(records, user), decrypt)
  }

  /** A record after `findByIdAndUpdate`: title, category, amount and date replaced, the owner kept.
      An absent date is an undefined key, which Mongoose leaves out of the update. */
  function Revise(rec: StoredExpense, fields: SealedFields): StoredExpense
  {
    StoredExpense(rec.user, fields.title, fields.category, fields.amount,
                  if fields.date.Some? then fields.date else rec.date)
  }

  /** The store: the document collection of expense records, keyed by id. */
  class ExpenseStore {
    var records: map<Id, StoredExpense>

    constructor ()
      ensures records == map[]
    {
      records := map[];
    }

    /** `createExpense`: seals the fields, then adds one record for the caller under a fresh id.
        If any encryption throws, nothing is stored and the reply is the 500 error. */
    method CreateExpense(c: Cbc.BlockCipher, key: seq<byte>, ivs: Ivs, user: UserId, body: Body, newId: Id)
      returns (reply: Reply)
      requires newId !in records
      modifies this
      ensures SealBody(c, key, ivs, body).None? ==> records == old(records) && reply == CreateFailed
      ensures SealBody(c, key, ivs, body).Some? ==>
                var f := SealBody(c, key, ivs, body).value;
                && records == old(records)[newId := StoredExpense(user, f.title, f.category, f.amount, f.date)]
                && reply == Expense(Echo(newId, user, body, body.date))
    {
      var sealed := SealBody(c, key, ivs, body);
      if sealed.None? {
        return CreateFailed;
      }
      var f := sealed.value;
      records := records[newId := StoredExpense(user, f.title, f.category, f.amount, f.date)];
      reply := Expense(Echo(newId, user, body, body.date));
    }

    /** `getExpenses`: reads the store and changes nothing. */
    method GetExpenses(c: Cbc.BlockCipher, key: seq<byte>, user: UserId) returns (reply: Reply)
      ensures reply == Fetch(records, Decipher(c, key), user)
    {
      reply := Fetch(records, Decipher(c, key), user);
    }

    /** `updateExpense`: seals the fields, then replaces them in the record with that id, whoever
        owns it. An encryption that throws, or an id with no record (the update returns null and
        reading `_id` of it throws), leaves the store as it was and replies with the 500 error. */
    method UpdateExpense(c: Cbc.BlockCipher, key: seq<byte>, ivs: Ivs, id: Id, body: Body) returns (reply: Reply)
      modifies this
      ensures SealBody(c, key, ivs, body).None? || id !in old(records) ==>
                records == old(records) && reply == UpdateFailed
      ensures SealBody(c, key, ivs, body).Some? && id in old(records) ==>
                var updated := Revise(old(records)[id], SealBody(c, key, ivs, body).value);
                && records == old(records)[id := updated]
                && reply == Expense(Echo(id, updated.user, body, updated.date))
    {
      var sealed := SealBody(c, key, ivs, body);
      if sealed.None? || id !in records {
        return UpdateFailed;
      }
      var updated := Revise(records[id], sealed.value);
      records := records[id := updated];
      reply := Expense(Echo(id, updated.user, body, updated.date));
    }

    /** `deleteExpense`: removes the record with that id, whoever owns it, and answers "Deleted"
        whether or not there was one. */
    method DeleteExpense(id: Id) returns (reply: Reply)
      modifies this
      ensures records == old(records) - {id}
      ensures reply == Deleted
    {
      records := records - {id};
      reply := Deleted;
    }
  }

  /** The view a later `getExpenses` gives of a record sealed from `body`: the fields exactly as
      sent, untrimmed. */
  function Unsealed(id: Id, user: UserId, body: Body, date: Option<string>): ExpenseView
    requires body.title.Str? && body.category.Str? && ToText(body.amount).Some?
  {
    ExpenseView(id, user, body.title.text, body.category.text, ToText(body.amount).value, date)
  }

  /** `decrypt` reads the sealed fields back as the body's title, category and amount text. */
  ghost predicate ReadsBack(decrypt: string -> Result<string, CipherError>, f: SealedFields, body: Body)
  {
    && body.title.Str? && body.category.Str? && ToText(body.amount).Some?
    && decrypt(f.title) == Ok(body.title.text)
    && decrypt(f.category) == Ok(body.category.text)
    && decrypt(f.amount) == Ok(ToText(body.amount).value)
  }

  /** Under a block cipher whose decryption undoes its encryption, the configured `decrypt`
      reads back every field a create or update sealed. */
  lemma SealedReadsBack(c: Cbc.BlockCipher, key: seq<byte>, ivs: Ivs, body: Body)
    requires Cbc.Inverts(c)
    requires SealBody(c, key, ivs, body).Some?
    ensures ReadsBack(Decipher(c, key), SealBody(c, key, ivs, body).value, body)
  {
  }

  /** Round trip of a create: under a block cipher whose decryption undoes its encryption, the
      record a create stores reads back, owner and date included, as exactly what was sent,
      untrimmed. */
  lemma OpenSealed(c: Cbc.BlockCipher, key: seq<byte>, ivs: Ivs, body: Body, id: Id, user: UserId)
    requires Cbc.Inverts(c)
    requires SealBody(c, key, ivs, body).Some?
    ensures var f := SealBody(c, key, ivs, body).value;
            Open(Decipher(c, key), id, StoredExpense(user, f.title, f.category, f.amount, f.date))
              == Some(Unsealed(id, user, body, body.date))
  {
    SealedReadsBack(c, key, ivs, body);
  }

  /** An integral amount is stored as text that decrypts and then parses back to that number. */
  lemma IntegerAmountReadsBack(c: Cbc.BlockCipher, key: seq<byte>, ivs: Ivs, body: Body)
    requires Cbc.Inverts(c)
    requires SealBody(c, key, ivs, body).Some? && body.amount.Num?
    ensures var stored := Decrypt(c, key, SealBody(c, key, ivs, body).value.amount);
            stored.Ok? && JsString.ParseInteger(stored.value) == Some(body.amount.n)
  {
  }

  /** A revised record reads back as the new fields, untrimmed, under the old owner, with the
      new date, or the old one when the update gave none. */
  lemma OpenRevised(decrypt: string -> Result<string, CipherError>, id: Id, rec: StoredExpense,
                    f: SealedFields, body: Body)
    requires ReadsBack(decrypt, f, body)
    ensures Open(decrypt, id, Revise(rec, f))
              == Some(Unsealed(id, rec.user, body, if f.date.Some? then f.date else rec.date))
  {
  }

  /** One record of the caller's that any of the three fields fails to decrypt fails the whole
      listing: there is no partial answer. */
  lemma FetchFailsOnUnreadable(records: map<Id, StoredExpense>, decrypt: string -> Result<string, CipherError>,
                               user: UserId, id: Id)
    requires id in records && records[id].user == user
    requires decrypt(records[id].title).Err? || decrypt(records[id].category).Err?
          || decrypt(records[id].amount).Err?
    ensures Fetch(records, decrypt, user) == FetchFailed
  {
    assert id in Owned(records, user);
  }

  /** Adding one record that opens to `v` adds `v` to the listing. */
  lemma OpenAllInsert(owned: map<Id, StoredExpense>, decrypt: string -> Result<string, CipherError>,
                      id: Id, rec: StoredExpense, v: ExpenseView)
    requires OpenAll(owned, decrypt).Expenses?
    requires Open(decrypt, id, rec) == Some(v)
    ensures OpenAll(owned[id := rec], decrypt) == Expenses(OpenAll(owned, decrypt).views[id := v])
  {
    var after := owned[id := rec];
    var r := OpenAll(after, decrypt);
    assert forall k | k in after :: Open(decrypt, k, after[k]).Some?;
    assert r.Expenses?;
    assert r.views == OpenAll(owned, decrypt).views[id := v];
  }

  /** Dropping one record drops it from the listing. */
  lemma OpenAllRemove(owned: map<Id, StoredExpense>, decrypt: string -> Result<string, CipherError>, id: Id)
    requires OpenAll(owned, decrypt).Expenses?
    ensures OpenAll(owned - {id}, decrypt) == Expenses(OpenAll(owned, decrypt).views - {id})
  {
    var after := owned - {id};
    var r := OpenAll(after, decrypt);
    assert forall k | k in after :: Open(decrypt, k, after[k]).Some?;
    assert r.Expenses?;
    assert r.views == OpenAll(owned, decrypt).views - {id};
  }

  /** After a create, the owner's `getExpenses` lists everything it listed before plus the new
      record, whose title and category are the untrimmed originals. */
  lemma FetchAfterCreate(records: map<Id, StoredExpense>, decrypt: string -> Result<string, CipherError>,
                         user: UserId, body: Body, f: SealedFields, newId: Id)
    requires newId !in records
    requires ReadsBack(decrypt, f, body)
    requires Fetch(records, decrypt, user).Expenses?
    ensures var after := records[newId := StoredExpense(user, f.title, f.category, f.amount, f.date)];
            Fetch(after, decrypt, user)
              == Expenses(Fetch(records, decrypt, user).views[newId := Unsealed(newId, user, body, f.date)])
  {
    var rec := StoredExpense(user, f.title, f.category, f.amount, f.date);
    assert Owned(records[newId := rec], user) == Owned(records, user)[newId := rec];
    OpenAllInsert(Owned(records, user), decrypt, newId, rec, Unsealed(newId, user, body, f.date));
  }

  /** A create reply and a later read disagree whenever the title has surrounding white space:
      the reply trims, the store keeps what was sent. */
  lemma ReplyTrimsStoreDoesNot(records: map<Id, StoredExpense>, decrypt: string -> Result<string, CipherError>,
                               user: UserId, body: Body, f: SealedFields, newId: Id)
    requires newId !in records
    requires ReadsBack(decrypt, f, body)
    requires Fetch(records, decrypt, user).Expenses?
    requires JsString.Trim(body.title.text) != body.title.text
    ensures var after := records[newId := StoredExpense(user, f.title, f.category, f.amount, f.date)];
            && Fetch(after, decrypt, user).Expenses?
            && Fetch(after, decrypt, user).views[newId].title != Echo(newId, user, body, f.date).title
  {
    FetchAfterCreate(records, decrypt, user, body, f, newId);
  }

  /** A record created for one user does not show up for any other. */
  lemma FetchOtherUser(records: map<Id, StoredExpense>, decrypt: string -> Result<string, CipherError>,
                       newId: Id, rec: StoredExpense, other: UserId)
    requires newId !in records
    requires rec.user != other
    ensures Fetch(records[newId := rec], decrypt, other) == Fetch(records, decrypt, other)
  {
    assert Owned(records[newId := rec], other) == Owned(records, other);
  }

  /** After a delete, the owner's listing is the earlier one without that id. */
  lemma FetchAfterDelete(records: map<Id, StoredExpense>, decrypt: string -> Result<string, CipherError>,
                         user: UserId, id: Id)
    requires Fetch(records, decrypt, user).Expenses?
    ensures Fetch(records - {id}, decrypt, user) == Expenses(Fetch(records, decrypt, user).views - {id})
  {
    assert Owned(records - {id}, user) == Owned(records, user) - {id};
    OpenAllRemove(Owned(records, user), decrypt, id);
  }

  /** After an update of a record the caller owns, the caller's listing shows the new fields,
      untrimmed, and every other entry as before. */
  lemma FetchAfterUpdate(records: map<Id, StoredExpense>, decrypt: string -> Result<string, CipherError>,
                         user: UserId, body: Body, f: SealedFields, id: Id)
    requires id in records && records[id].user == user
    requires ReadsBack(decrypt, f, body)
    requires Fetch(records, decrypt, user).Expenses?
    ensures var updated := Revise(records[id], f);
            Fetch(records[id := updated], decrypt, user)
              == Expenses(Fetch(records, decrypt, user).views[id := Unsealed(id, user, body, updated.date)])
  {
    var updated := Revise(records[id], f);
    var owned := Owned(records, user);
    assert Owned(records[id := updated], user) == owned[id := updated];
    OpenRevised(decrypt, id, records[id], f, body);
    OpenAllInsert(owned, decrypt, id, updated, Unsealed(id, user, body, updated.date));
  }
}
