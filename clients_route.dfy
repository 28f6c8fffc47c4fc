/** `GET` and `POST /api/clients`: list the stored clients, or create one from a JSON body. */
module ClientsRoute {
  import opened Wrappers
  import opened Text
  import opened ClientStore

  /** The fields of the POST body; `None` is a field that is absent. */
  datatype CreateBody = CreateBody(name: Option<string>, technicalKnowledge: Option<int>,
                                   description: Option<string>)

  /** 201 with the created record, 200 with the list, or an error status and message. */
  datatype Reply = Created(client: Client) | Listing(clients: seq<Client>) | Failure(status: int, error: string)

  const MissingFields: string := "Name and technical knowledge are required"

  /** `!name || !technicalKnowledge`: absent, the empty name, or the level 0. */
  predicate MissingRequired(body: CreateBody) {
    body.name.None? || body.name.value == "" || body.technicalKnowledge.None? || body.technicalKnowledge.value == 0
  }

  /** The record to store: the id is the current time in decimal, the fields are renamed, and
      a falsy description becomes "". */
  function NewRecord(body: CreateBody, now: nat): (c: Client)
    requires !MissingRequired(body)
    ensures c.id == Decimal(now) && c.name == body.name.value && c.name != ""
    ensures c.technicalKnowledge == body.technicalKnowledge.value && c.technicalKnowledge != 0
    ensures body.description.Some? ==> c.description == body.description.value
    ensures body.description.None? ==> c.description == ""
  {
    Client(Decimal(now), body.name.value, body.technicalKnowledge.value,
           if body.description.Some? && body.description.value != "" then body.description.value else "")
  }

  /** `POST`. `body` is `None` when the request body is not JSON, which throws inside the
      handler and is answered like a store failure. */
  method Post(table: ClientTable, body: Option<CreateBody>, now: nat, dbOk: bool) returns (r: Reply)
    requires table.Valid()
    modifies table
    ensures table.Valid()
    ensures body.None? ==> r == Failure(500, CreateFailed) && table.rows == old(table.rows)
    ensures body.Some? && MissingRequired(body.value) ==>
              r == Failure(400, MissingFields) && table.rows == old(table.rows)
    ensures body.Some? && !MissingRequired(body.value) && (!dbOk || Decimal(now) in old(table.rows)) ==>
              r == Failure(500, CreateFailed) && table.rows == old(table.rows)
    ensures body.Some? && !MissingRequired(body.value) && dbOk && Decimal(now) !in old(table.rows) ==>
              r == Created(NewRecord(body.value, now))
              && table.rows == old(table.rows)[Decimal(now) := NewRecord(body.value, now)]
    ensures r.Created? ==> table.GetClientById(r.client.id, true) == Ok(Some(r.client))
  {
    if body.None? {
      return Failure(500, CreateFailed);
    }
    if MissingRequired(body.value) {
      return Failure(400, MissingFields);
    }
    var record := NewRecord(body.value, now);
    var created := table.CreateClient(record, dbOk);
    if created.Err? {
      return Failure(500, CreateFailed);
    }
    r := Created(created.value);
  }

  /** `GET`: the store's listing as it comes, or 500. */
  method Get(table: ClientTable, dbOk: bool) returns (r: Reply)
    requires table.Valid()
    ensures !dbOk ==> r == Failure(500, FetchFailed)
    ensures dbOk ==> r.Listing?
    ensures r.Listing? ==> SortedByName(r.clients) && |r.clients| == |table.rows|
    ensures r.Listing? ==> forall c :: c in r.clients <==> c.id in table.rows && table.rows[c.id] == c
  {
    var listing := table.GetClients(dbOk);
    if listing.Err? {
      return Failure(500, FetchFailed);
    }
    r := Listing(listing.value);
  }
}
