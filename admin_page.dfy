/** The admin page: the list of clients with add, edit, update and delete, behind the login.
    Each handler sends one request and changes the page's state according to the reply, which
    is a parameter here. */
module AdminPage {
  import opened Wrappers
  import opened Text
  import Levels
  import opened ClientStore
  import ClientsRoute

  /** What a `fetch` gives the page: a 2xx reply with its JSON body, a non-2xx reply, or a
      rejection (network failure, or a body that is not JSON). */
  datatype Fetched<T> = Ok(body: T) | NotOk | Threw

  /** The add/edit form. */
  datatype Form = Form(name: string, technicalKnowledge: int, description: string)

  /** The form as it starts and as each successful submission leaves it. */
  const EmptyForm: Form := Form("", 1, "")

  /** `isEditing` is falsy: `null` or the empty id. */
  predicate NotEditing(isEditing: Option<string>) {
    isEditing.None? || isEditing.value == ""
  }

  // ----- the list transforms -----

  /** `clients.map(c => c.id === id ? updated : c)`. */
  function ReplaceById(clients: seq<Client>, id: string, updated: Client): (r: seq<Client>)
    ensures |r| == |clients|
    ensures forall k :: 0 <= k < |r| && clients[k].id != id ==> r[k] == clients[k]
    ensures forall k :: 0 <= k < |r| && clients[k].id == id ==> r[k] == updated
  {
    if clients == [] then []
    else [if clients[0].id == id then updated else clients[0]] + ReplaceById(clients[1..], id, updated)
  }

  /** `clients.filter(c => c.id !== id)`. */
  function RemoveById(clients: seq<Client>, id: string): (r: seq<Client>)
    ensures |r| <= |clients|
    ensures forall c :: c in r <==> c in clients && c.id != id
  {
    if clients == [] then []
    else (if clients[0].id != id then [clients[0]] else []) + RemoveById(clients[1..], id)
  }

  /** Removing keeps the relative order of what stays: it works piecewise over a
      concatenation. */
  lemma {:induction false} RemoveByIdConcat(a: seq<Client>, b: seq<Client>, id: string)
    ensures RemoveById(a + b, id) == RemoveById(a, id) + RemoveById(b, id)
  {
    if a != [] {
      assert (a + b)[0] == a[0] && (a + b)[1..] == a[1..] + b;
      RemoveByIdConcat(a[1..], b, id);
    } else {
      assert a + b == b;
    }
  }

  /** Removing an id nobody has changes nothing, and removing twice is removing once. */
  lemma {:induction false} RemoveByIdIdempotent(clients: seq<Client>, id: string)
    ensures RemoveById(RemoveById(clients, id), id) == RemoveById(clients, id)
    ensures (forall c :: c in clients ==> c.id != id) ==> RemoveById(clients, id) == clients
  {
    if clients != [] {
      RemoveByIdIdempotent(clients[1..], id);
      var head := if clients[0].id != id then [clients[0]] else [];
      RemoveByIdConcat(head, RemoveById(clients[1..], id), id);
      assert RemoveById(head, id) == head by {
        if head != [] { assert head[1..] == []; }
      }
      if forall c :: c in clients ==> c.id != id {
        assert forall c :: c in clients[1..] ==> c in clients;
        assert [clients[0]] + clients[1..] == clients;
      }
    }
  }

  /** Updating and then deleting the same id is the same as deleting it. */
  lemma {:induction false} RemoveAfterReplace(clients: seq<Client>, id: string, updated: Client)
    requires updated.id == id
    ensures RemoveById(ReplaceById(clients, id, updated), id) == RemoveById(clients, id)
  {
    if clients != [] {
      RemoveAfterReplace(clients[1..], id, updated);
    }
  }

  /** Replacing under an id nobody has changes nothing, and replacing with a record that keeps
      the id keeps the list's ids in place. */
  lemma ReplaceKeepsIds(clients: seq<Client>, id: string, updated: Client)
    ensures (forall c :: c in clients ==> c.id != id) ==> ReplaceById(clients, id, updated) == clients
    ensures updated.id == id ==>
              forall k :: 0 <= k < |clients| ==> ReplaceById(clients, id, updated)[k].id == clients[k].id
  {
    var r := ReplaceById(clients, id, updated);
    if forall c :: c in clients ==> c.id != id {
      assert forall k :: 0 <= k < |clients| ==> clients[k] in clients;
      assert r == clients;
    }
  }

  // ----- the level badge -----

  /** `getTechnicalLevelText` on this page. */
  function LevelLabel(level: int): string {
    if level <= 2 then "Beginner"
    else if level <= 4 then "Intermediate"
    else "Advanced"
  }

  const RedBadge: string := "bg-red-100/80 text-red-800 border-red-200/50 backdrop-blur-sm"
  const YellowBadge: string := "bg-yellow-100/80 text-yellow-800 border-yellow-200/50 backdrop-blur-sm"
  const GreenBadge: string := "bg-green-100/80 text-green-800 border-green-200/50 backdrop-blur-sm"

  /** `getTechnicalLevelColor`: red, yellow or green badge classes. */
  function LevelColor(level: int): string {
    if level <= 2 then RedBadge
    else if level <= 4 then YellowBadge
    else GreenBadge
  }

  /** The label and the colour follow the same reference tiers, so a badge's label and colour
      always agree. */
  lemma BadgeTier(level: int)
    ensures LevelLabel(level) == "Beginner" <==> Levels.TierOf(level) == Levels.Beginner
    ensures LevelLabel(level) == "Intermediate" <==> Levels.TierOf(level) == Levels.Intermediate
    ensures LevelLabel(level) == "Advanced" <==> Levels.TierOf(level) == Levels.Advanced
    ensures LevelColor(level) == RedBadge <==> Levels.TierOf(level) == Levels.Beginner
    ensures LevelColor(level) == YellowBadge <==> Levels.TierOf(level) == Levels.Intermediate
    ensures LevelColor(level) == GreenBadge <==> Levels.TierOf(level) == Levels.Advanced
  {
    assert "Beginner"[0] == 'B' && "Intermediate"[0] == 'I' && "Advanced"[0] == 'A';
    assert |RedBadge| == 61 && |YellowBadge| == 70 && |GreenBadge| == 67;
  }

  /** The body an add or an update sends. */
  function BodyOf(form: Form): (body: ClientsRoute.CreateBody)
    ensures body.name == Some(form.name) && body.technicalKnowledge == Some(form.technicalKnowledge)
    ensures body.description == Some(form.description)
  {
    ClientsRoute.CreateBody(Some(form.name), Some(form.technicalKnowledge), Some(form.description))
  }

  /** The page sends only names that are not blank, so the create route can turn an add away
      for a missing field only when the level is 0. */
  lemma SentBodyHasName(form: Form)
    requires !IsBlank(form.name)
    ensures ClientsRoute.MissingRequired(BodyOf(form)) <==> form.technicalKnowledge == 0
  {
    assert form.name != "";
  }

  // ----- the page -----

  class AdminState {
    var isAuthenticated: Option<bool>
    var clients: seq<Client>
    var isEditing: Option<string>
    var isLoading: bool
    var isSubmitting: bool
    var form: Form

    /** The state before the session check: unknown authentication, no clients, loading. */
    constructor()
      ensures isAuthenticated.None? && clients == [] && isEditing.None? && isLoading
      ensures !isSubmitting && form == EmptyForm
    {
      isAuthenticated := None;
      clients := [];
      isEditing := None;
      isLoading := true;
      isSubmitting := false;
      form := EmptyForm;
    }

    /** `checkAuthStatus`: authenticated exactly when the verify route answers 2xx. */
    method CheckAuthStatus(reply: Fetched<()>)
      modifies this
      ensures isAuthenticated == Some(reply.Ok?)
      ensures clients == old(clients) && isEditing == old(isEditing) && form == old(form)
      ensures isSubmitting == old(isSubmitting) && isLoading == old(isLoading)
    {
      if reply.Ok? {
        isAuthenticated := Some(true);
      } else {
        isAuthenticated := Some(false);
      }
    }

    /** `handleLoginSuccess`. */
    method HandleLoginSuccess()
      modifies this
      ensures isAuthenticated == Some(true)
      ensures clients == old(clients) && isEditing == old(isEditing) && form == old(form)
      ensures isSubmitting == old(isSubmitting) && isLoading == old(isLoading)
    {
      isAuthenticated := Some(true);
    }

    /** `handleLogout`: once the logout request has an answer, whatever its status, the page
        is logged out and holds no clients; a rejected request changes nothing. */
    method HandleLogout(reply: Fetched<()>)
      modifies this
      ensures !reply.Threw? ==> isAuthenticated == Some(false) && clients == []
      ensures reply.Threw? ==> isAuthenticated == old(isAuthenticated) && clients == old(clients)
      ensures isEditing == old(isEditing) && form == old(form)
      ensures isSubmitting == old(isSubmitting) && isLoading == old(isLoading)
    {
      if !reply.Threw? {
        isAuthenticated := Some(false);
        clients := [];
      }
    }

    /** `fetchClients`: a 2xx listing replaces the list; anything else keeps it. */
    method FetchClients(reply: Fetched<seq<Client>>)
      modifies this
      ensures reply.Ok? ==> clients == reply.body
      ensures !reply.Ok? ==> clients == old(clients)
      ensures !isLoading
      ensures isAuthenticated == old(isAuthenticated) && isEditing == old(isEditing) && form == old(form)
      ensures isSubmitting == old(isSubmitting)
    {
      isLoading := true;
      if reply.Ok? {
        clients := reply.body;
      }
      isLoading := false;
    }

    /** `handleAddClient`. Nothing is sent while a submission is in flight or when the name is
        blank. A 2xx reply appends the created client at the end, without re-sorting, and
        empties the form; any other reply leaves list and form as they were. */
    method HandleAddClient(reply: Fetched<Client>) returns (sent: Option<ClientsRoute.CreateBody>)
      modifies this
      ensures IsBlank(old(form.name)) || old(isSubmitting) ==>
                sent.None? && clients == old(clients) && form == old(form)
      ensures !IsBlank(old(form.name)) && !old(isSubmitting) ==> sent == Some(BodyOf(old(form)))
      ensures sent.Some? && reply.Ok? ==> clients == old(clients) + [reply.body] && form == EmptyForm
      ensures sent.Some? && !reply.Ok? ==> clients == old(clients) && form == old(form)
      ensures isAuthenticated == old(isAuthenticated) && isEditing == old(isEditing)
      ensures isSubmitting == old(isSubmitting) && isLoading == old(isLoading)
    {
      if IsBlank(form.name) || isSubmitting {
        return None;
      }
      isSubmitting := true;
      sent := Some(BodyOf(form));
      if reply.Ok? {
        clients := clients + [reply.body];
        form := EmptyForm;
      }
      isSubmitting := false;
    }

    /** `handleEditClient`: the form takes the client's fields and the page edits its id. */
    method HandleEditClient(client: Client)
      modifies this
      ensures isEditing == Some(client.id)
      ensures form == Form(client.name, client.technicalKnowledge, client.description)
      ensures isAuthenticated == old(isAuthenticated) && clients == old(clients)
      ensures isSubmitting == old(isSubmitting) && isLoading == old(isLoading)
    {
      isEditing := Some(client.id);
      form := Form(client.name, client.technicalKnowledge, client.description);
    }

    /** `handleUpdateClient`. Nothing is sent when the name is blank, nothing is being edited
        or a submission is in flight. A 2xx reply replaces every entry with the edited id by
        the returned record, ends the edit and empties the form; any other reply changes
        nothing. */
    method HandleUpdateClient(reply: Fetched<Client>) returns (sent: Option<(string, ClientsRoute.CreateBody)>)
      modifies this
      ensures IsBlank(old(form.name)) || NotEditing(old(isEditing)) || old(isSubmitting) ==>
                sent.None? && clients == old(clients) && form == old(form) && isEditing == old(isEditing)
      ensures !IsBlank(old(form.name)) && !NotEditing(old(isEditing)) && !old(isSubmitting) ==>
                sent == Some((old(isEditing).value, BodyOf(old(form))))
      ensures sent.Some? && reply.Ok? ==>
                clients == ReplaceById(old(clients), sent.value.0, reply.body)
                && isEditing.None? && form == EmptyForm
      ensures sent.Some? && !reply.Ok? ==>
                clients == old(clients) && form == old(form) && isEditing == old(isEditing)
      ensures isAuthenticated == old(isAuthenticated)
      ensures isSubmitting == old(isSubmitting) && isLoading == old(isLoading)
    {
      if IsBlank(form.name) || NotEditing(isEditing) || isSubmitting {
        return None;
      }
      isSubmitting := true;
      var id := isEditing.value;
      sent := Some((id, BodyOf(form)));
      if reply.Ok? {
        clients := ReplaceById(clients, id, reply.body);
        isEditing := None;
        form := EmptyForm;
      }
      isSubmitting := false;
    }

    /** `handleDeleteClient`: a 2xx reply removes every entry with that id; any other reply
        keeps the list. */
    method HandleDeleteClient(id: string, reply: Fetched<()>)
      modifies this
      ensures reply.Ok? ==> clients == RemoveById(old(clients), id)
      ensures !reply.Ok? ==> clients == old(clients)
      ensures isAuthenticated == old(isAuthenticated) && isEditing == old(isEditing) && form == old(form)
      ensures isSubmitting == old(isSubmitting) && isLoading == old(isLoading)
    {
      if reply.Ok? {
        clients := RemoveById(clients, id);
      }
    }

    /** `handleCancelEdit`. */
    method HandleCancelEdit()
      modifies this
      ensures isEditing.None? && form == EmptyForm
      ensures isAuthenticated == old(isAuthenticated) && clients == old(clients)
      ensures isSubmitting == old(isSubmitting) && isLoading == old(isLoading)
    {
      isEditing := None;
      form := EmptyForm;
    }
  }
}
