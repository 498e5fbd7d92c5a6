/**
 * The decision layer of index.js, stated on values: each route handler checks
 * its guards, performs one operation on the person collection and picks a
 * status code, or passes an error to `next`; `errorHandler` turns the errors
 * it knows into 400 responses and `unknownEndpoint` answers every other path.
 * The collection is a map from ObjectId to Person; every Mongoose query is the
 * corresponding lookup, insert, remove or overwrite on that map.
 */
module Handlers {
  import opened Wrappers
  import opened ObjectIds
  import opened PersonSchema

  /** The person collection. */
  type Store = map<ObjectId, Person>

  /** What `express.json()` made of the request body. */
  datatype Payload = Unparseable | Fields(name: Option<string>, number: Option<string>)

  /**
   * The routes of index.js; `Unmatched` is every path none of them serves.
   * `ShowInfo` carries the clock's reading, as `new Date()` prints it.
   */
  datatype Route =
    | ListPersons
    | ShowPerson(id: string)
    | DeletePerson(id: string)
    | CreatePerson
    | UpdatePerson(id: string)
    | ShowInfo(now: string)
    | Unmatched

  datatype Request = Request(route: Route, payload: Payload)

  /** A stored person as a handler passes it to `res.json`. */
  datatype Entry = Entry(id: ObjectId, person: Person)

  datatype Body = PersonJson(entry: Entry) | PersonArray(entries: seq<Entry>) | ErrorJson(error: string) | NoContent | Html(text: string)

  datatype Response = Response(status: nat, body: Body)

  /** A JavaScript error as `errorHandler` sees it: its `name` and `message`. */
  datatype Error = Error(name: string, message: string)

  /** A handler either sends a response or calls `next(error)`. */
  datatype Outcome = Respond(response: Response) | Next(error: Error)

  /** The collection after a request, and what the request produced. */
  datatype Transition = Transition(store: Store, outcome: Outcome)

  /** What `res.json` writes for an entry: its document put through the `toJSON` transform. */
  function Rendered(e: Entry): (json: Document)
    ensures json == map["id" := Str(e.id), "name" := Str(e.person.name), "number" := Str(e.person.number)]
  {
    PersonToJson(e.id, e.person);
    ToJson(StoredDocument(e.id, e.person))
  }

  const NotFound := Response(404, ErrorJson("Person not found"))
  const MissingFields := Response(400, ErrorJson("Name or number is not provided"))
  const NameExists := Response(400, ErrorJson("Name already exists"))

  function Found(id: ObjectId, p: Person): Response
  {
    Response(200, PersonJson(Entry(id, p)))
  }

  // ---------------------------------------------------------------------------
  // The errors handlers pass to `next`
  // ---------------------------------------------------------------------------

  /** Mongoose's error for an `:id` that is not an ObjectId. */
  function CastError(raw: string): (e: Error)
    ensures e.name == "CastError"
  {
    Error("CastError", "Cast to ObjectId failed for value \"" + raw + "\" (type string) at path \"_id\" for model \"Person\"")
  }

  /** The error `express.json()` raises for a body that is not JSON. */
  const BodySyntaxError := Error("SyntaxError", "Unexpected token in JSON")

  /** Message prefixes of a failed `save` and of failed update validators. */
  const SavePrefix := "Person validation failed"
  const UpdatePrefix := "Validation failed"

  /** How JavaScript prints a non-negative integer: its decimal digits, no leading zeros. */
  function DecimalDigits(n: nat): (s: string)
    ensures |s| >= 1 && forall i :: 0 <= i < |s| ==> '0' <= s[i] <= '9'
    ensures n < 10 <==> |s| == 1
    ensures s[0] == '0' ==> n == 0
  {
    if n < 10 then [('0' as int + n) as char] else DecimalDigits(n / 10) + [('0' as int + n % 10) as char]
  }

  /** The number a string of decimal digits denotes. */
  function DigitsValue(s: string): nat
    requires forall i :: 0 <= i < |s| ==> '0' <= s[i] <= '9'
  {
    if s == [] then 0 else DigitsValue(s[..|s| - 1]) * 10 + (s[|s| - 1] as int - '0' as int)
  }

  /** Reading back a printed number gives the number. */
  lemma {:induction false} DecimalDigitsRoundTrip(n: nat)
    ensures DigitsValue(DecimalDigits(n)) == n
  {
    var s := DecimalDigits(n);
    if n >= 10 {
      DecimalDigitsRoundTrip(n / 10);
      assert s[..|s| - 1] == DecimalDigits(n / 10);
    } else {
      assert s[..|s| - 1] == [];
    }
  }

  /** Mongoose's default message for one failing path. */
  function ViolationMessage(v: Violation): (m: string)
    ensures var lead := if v.rule.Validator? then "Validator failed for path `" else "Path `";
            && |lead| + |v.path| <= |m|
            && m[..|lead|] == lead
            && m[|lead|..|lead| + |v.path|] == v.path
  {
    match v.rule
    case Required => "Path `" + v.path + "` is required."
    case MinLength(min) =>
      "Path `" + v.path + "` (`" + v.value + "`) is shorter than the minimum allowed length (" + DecimalDigits(min) + ")."
    case Validator => "Validator failed for path `" + v.path + "` with value `" + v.value + "`"
  }

  /** One failing path as `errorHandler`'s client reads it: `path: message`. */
  function Listing(v: Violation): string
  {
    v.path + ": " + ViolationMessage(v)
  }

  /** The items separated by `, `, as Mongoose joins the messages of a ValidationError. */
  function Joined(items: seq<string>): (m: string)
    ensures items == [] ==> m == []
    ensures items != [] ==> |items[0]| <= |m| && m[..|items[0]|] == items[0]
  {
    if items == [] then ""
    else if |items| == 1 then items[0]
    else
      assert (items[0] + (", " + Joined(items[1..])))[..|items[0]|] == items[0];
      items[0] + ", " + Joined(items[1..])
  }

  function ListViolations(vs: seq<Violation>): (m: string)
    ensures m == [] <==> vs == []
    ensures vs != [] ==> |vs[0].path| + 2 <= |m| && m[..|vs[0].path| + 2] == vs[0].path + ": "
  {
    var items := seq(|vs|, i requires 0 <= i < |vs| => Listing(vs[i]));
    assert vs != [] ==> items[0][..|vs[0].path| + 2] == vs[0].path + ": ";
    Joined(items)
  }

  /** The text `piece` appears in `text` starting at position `k`. */
  predicate OccursAt(piece: string, text: string, k: nat)
  {
    k + |piece| <= |text| && text[k..k + |piece|] == piece
  }

  lemma OccursAtFront(piece: string, rest: string)
    ensures OccursAt(piece, piece + rest, 0)
  {
    assert (piece + rest)[..|piece|] == piece;
  }

  lemma OccursAfter(piece: string, front: string, text: string, k: nat)
    requires OccursAt(piece, text, k)
    ensures OccursAt(piece, front + text, |front| + k)
  {
    assert (front + text)[|front| + k..|front| + k + |piece|] == text[k..k + |piece|];
  }

  /** Where `items[i]` starts in the joined text. */
  lemma {:induction false} JoinedPosition(items: seq<string>, i: nat) returns (k: nat)
    requires i < |items|
    ensures OccursAt(items[i], Joined(items), k)
  {
    if |items| == 1 {
      OccursAtFront(items[0], "");
      assert items[0] + "" == Joined(items);
      k := 0;
    } else if i == 0 {
      OccursAtFront(items[0], ", " + Joined(items[1..]));
      assert items[0] + (", " + Joined(items[1..])) == Joined(items);
      k := 0;
    } else {
      var j := JoinedPosition(items[1..], i - 1);
      assert items[1..][i - 1] == items[i];
      OccursAfter(items[i], items[0] + ", ", Joined(items[1..]), j);
      assert (items[0] + ", ") + Joined(items[1..]) == Joined(items);
      k := |items[0]| + 2 + j;
    }
  }

  /** Every failing path's `path: message` is part of the listing. */
  lemma ListViolationsListsEvery(vs: seq<Violation>, i: nat)
    requires i < |vs|
    ensures exists k :: OccursAt(Listing(vs[i]), ListViolations(vs), k)
  {
    var items := seq(|vs|, j requires 0 <= j < |vs| => Listing(vs[j]));
    var k := JoinedPosition(items, i);
    assert OccursAt(Listing(vs[i]), ListViolations(vs), k);
  }

  /** A ValidationError over the given failing paths. */
  function ValidationError(prefix: string, vs: seq<Violation>): (e: Error)
    ensures e.name == "ValidationError"
    ensures |prefix| + 2 <= |e.message| && e.message[..|prefix|] == prefix
  {
    Error("ValidationError", prefix + ": " + ListViolations(vs))
  }

  // ---------------------------------------------------------------------------
  // errorHandler and unknownEndpoint (index.js:147-170)
  // ---------------------------------------------------------------------------

  /**
   * errorHandler: 400 for the three error names it knows (the message of a
   * ValidationError goes to the client), and the error passed on unchanged
   * otherwise.
   */
  function ErrorHandler(e: Error): (r: Outcome)
    ensures r.Respond? <==> e.name in {"CastError", "SyntaxError", "ValidationError"}
    ensures r.Respond? ==> r.response.status == 400 && r.response.body.ErrorJson?
    ensures e.name == "CastError" ==> r.response.body.error == "malformatted id"
    ensures e.name == "SyntaxError" ==> r.response.body.error == "malformatted body"
    ensures e.name == "ValidationError" ==> r.response.body.error == e.message
    ensures r.Next? ==> r.error == e
  {
    if e.name == "CastError" then Respond(Response(400, ErrorJson("malformatted id")))
    else if e.name == "SyntaxError" then Respond(Response(400, ErrorJson("malformatted body")))
    else if e.name == "ValidationError" then Respond(Response(400, ErrorJson(e.message)))
    else Next(e)
  }

  function UnknownEndpoint(): (r: Response)
    ensures r.status == 404 && r.body == ErrorJson("unknown endpoint")
  {
    Response(404, ErrorJson("unknown endpoint"))
  }

  // ---------------------------------------------------------------------------
  // The route handlers (index.js:28-145)
  // ---------------------------------------------------------------------------

  /** `order` lists every id of the store exactly once: the order `find()` returns them in. */
  ghost predicate Enumerates(order: seq<ObjectId>, store: Store)
  {
    && (forall i :: 0 <= i < |order| ==> order[i] in store)
    && (forall id :: id in store ==> id in order)
    && (forall i, j :: 0 <= i < j < |order| ==> order[i] != order[j])
  }

  /** GET /api/persons: every person, as JSON, in the order the database gives. */
  function ListStep(store: Store, order: seq<ObjectId>): (r: Response)
    requires Enumerates(order, store)
    ensures r.status == 200 && r.body.PersonArray? && |r.body.entries| == |order|
    ensures forall e :: e in r.body.entries ==> e.id in store && e.person == store[e.id]
    ensures forall i :: 0 <= i < |order| ==> r.body.entries[i] == Entry(order[i], store[order[i]])
  {
    Response(200, PersonArray(seq(|order|, i requires 0 <= i < |order| => Entry(order[i], store[order[i]]))))
  }

  /** GET /api/persons/:id. The collection is not touched. */
  function ShowStep(store: Store, raw: string): (r: Outcome)
    ensures r.Respond? && r.response.status == 200 <==> CastId(raw).Some? && CastId(raw).value in store
    ensures r.Respond? && r.response.status == 200 ==>
              r.response == Found(CastId(raw).value, store[CastId(raw).value])
    ensures r.Respond? && r.response.status != 200 ==> r.response == NotFound
    ensures r.Next? <==> !IsHexId(raw)
    ensures r.Next? ==> r.error == CastError(raw)
  {
    match CastId(raw)
    case None => Next(CastError(raw))
    case Some(id) => if id in store then Respond(Found(id, store[id])) else Respond(NotFound)
  }

  /** DELETE /api/persons/:id. */
  function DeleteStep(store: Store, raw: string): (r: Transition)
    ensures r.store == store || (IsHexId(raw) && r.store == store - {CastId(raw).value})
    ensures r.store != store <==> r.outcome == Respond(Response(204, NoContent))
    ensures r.outcome == Respond(NotFound) <==> IsHexId(raw) && CastId(raw).value !in store
    ensures !IsHexId(raw) ==> r == Transition(store, Next(CastError(raw)))
    ensures IsHexId(raw) && CastId(raw).value in store ==>
              r == Transition(store - {CastId(raw).value}, Respond(Response(204, NoContent)))
  {
    match CastId(raw)
    case None => Transition(store, Next(CastError(raw)))
    case Some(id) =>
      if id in store then Transition(store - {id}, Respond(Response(204, NoContent)))
      else Transition(store, Respond(NotFound))
  }

  /** Some stored person already has this name: the `findOne({ name })` lookup. */
  function NameTaken(store: Store, name: string): (taken: bool)
    ensures taken <==> exists id :: id in store && store[id].name == name
  {
    name in (set id | id in store :: store[id].name)
  }

  /**
   * POST /api/persons. `!name || !number` on a string field fails exactly when
   * Mongoose's `required` would, so the guard is written with `Supplied`.
   * `newId` is the ObjectId the new document is given.
   */
  function CreateStep(store: Store, name: Option<string>, number: Option<string>, newId: ObjectId): (r: Transition)
    ensures !Supplied(name) || !Supplied(number) ==> r == Transition(store, Respond(MissingFields))
    ensures Supplied(name) && Supplied(number) && NameTaken(store, name.value) ==>
              r == Transition(store, Respond(NameExists))
    ensures r.outcome.Next? ==> r.store == store && r.outcome.error.name == "ValidationError"
    ensures r.outcome.Respond? && r.outcome.response.status == 200 <==>
              Supplied(name) && Supplied(number) && !NameTaken(store, name.value)
              && SchemaValid(Person(name.value, number.value))
    ensures r.outcome.Respond? && r.outcome.response.status == 200 ==>
              var p := Person(name.value, number.value);
              r.store == store[newId := p] && r.outcome.response == Found(newId, p)
    ensures r.store != store ==> r.outcome.Respond? && r.outcome.response.status == 200
    ensures (Supplied(name) && Supplied(number) && !NameTaken(store, name.value)
             && !SchemaValid(Person(name.value, number.value))) ==>
              r == Transition(store, Next(ValidationError(SavePrefix, Validate(name, number))))
  {
    if !Supplied(name) || !Supplied(number) then Transition(store, Respond(MissingFields))
    else if NameTaken(store, name.value) then Transition(store, Respond(NameExists))
    else
      var errors := Validate(name, number);
      if errors != [] then Transition(store, Next(ValidationError(SavePrefix, errors)))
      else
        var p := Person(name.value, number.value);
        Transition(store[newId := p], Respond(Found(newId, p)))
  }

  /**
   * PUT /api/persons/:id. The id is cast first, then the update validators run,
   * then the record is looked up; no check that the new name is free.
   */
  function UpdateStep(store: Store, raw: string, name: Option<string>, number: Option<string>): (r: Transition)
    ensures r.store.Keys == store.Keys
    ensures forall id :: id in store && (CastId(raw) != Some(id)) ==> r.store[id] == store[id]
    ensures !Supplied(name) || !Supplied(number) ==> r == Transition(store, Respond(MissingFields))
    ensures r.outcome == Respond(NotFound) ==> r.store == store
    ensures r.outcome.Next? ==> r.store == store && r.outcome.error.name in {"CastError", "ValidationError"}
    ensures r.outcome.Respond? && r.outcome.response.status == 200 <==>
              Supplied(name) && Supplied(number) && IsHexId(raw) && CastId(raw).value in store
              && SchemaValid(Person(name.value, number.value))
    ensures r.outcome.Respond? && r.outcome.response.status == 200 ==>
              var p := Person(name.value, number.value);
              r.store == store[CastId(raw).value := p] && r.outcome.response == Found(CastId(raw).value, p)
    ensures Supplied(name) && Supplied(number) && !IsHexId(raw) ==> r == Transition(store, Next(CastError(raw)))
    ensures Supplied(name) && Supplied(number) && IsHexId(raw) && !SchemaValid(Person(name.value, number.value)) ==>
              r == Transition(store, Next(ValidationError(UpdatePrefix, Validate(name, number))))
    ensures (Supplied(name) && Supplied(number) && IsHexId(raw) && CastId(raw).value !in store
             && SchemaValid(Person(name.value, number.value))) ==> r == Transition(store, Respond(NotFound))
  {
    if !Supplied(name) || !Supplied(number) then Transition(store, Respond(MissingFields))
    else
      match CastId(raw)
      case None => Transition(store, Next(CastError(raw)))
      case Some(id) =>
        var errors := Validate(name, number);
        if errors != [] then Transition(store, Next(ValidationError(UpdatePrefix, errors)))
        else if id !in store then Transition(store, Respond(NotFound))
        else
          var p := Person(name.value, number.value);
          Transition(store[id := p], Respond(Found(id, p)))
  }

  // ---------------------------------------------------------------------------
  // GET /info (index.js:107-114)
  // ---------------------------------------------------------------------------

  /** The fixed text of the /info page around the count and the date. */
  const InfoHead := "\n    <p>Phonebook has info for "
  const InfoMiddle := " people</p>\n    <p>"
  const InfoTail := "</p>\n    "

  /**
   * The page as index.js writes it: the count comes from `countDocuments`,
   * which resolves to a number, and the template prints that number's
   * `length`, which a number does not have; so `undefined` is printed
   * whatever the count is.
   */
  function InfoPageAsWritten(count: nat, now: string): (page: string)
    ensures |InfoHead| + 9 <= |page| && page[|InfoHead|..|InfoHead| + 9] == "undefined"
  {
    InfoHead + "undefined" + InfoMiddle + now + InfoTail
  }

  /** The page as intended: the number of stored persons, then the date. */
  function InfoPage(count: nat, now: string): (page: string)
    ensures var h, d := |InfoHead|, DecimalDigits(count);
            && h + |d| < |page|
            && page[..h] == InfoHead
            && page[h..h + |d|] == d
            && page[h + |d|] == ' '
    ensures DigitsValue(page[|InfoHead|..|InfoHead| + |DecimalDigits(count)|]) == count
  {
    var d := DecimalDigits(count);
    var page := InfoHead + d + InfoMiddle + now + InfoTail;
    assert page == InfoHead + (d + InfoMiddle) + now + InfoTail;
    assert page[|InfoHead|..|InfoHead| + |d|] == d;
    DecimalDigitsRoundTrip(count);
    page
  }

  /** GET /info: 200 with the page for the current collection. */
  function InfoStep(store: Store, now: string): (r: Response)
    ensures r.status == 200 && r.body.Html?
    ensures var d := DecimalDigits(|store|);
            |InfoHead| + |d| < |r.body.text| && r.body.text[|InfoHead|..|InfoHead| + |d|] == d
    ensures DigitsValue(r.body.text[|InfoHead|..|InfoHead| + |DecimalDigits(|store|)|]) == |store|
  {
    Response(200, Html(InfoPage(|store|, now)))
  }

  /** The page as written never shows the count: it differs from the intended page for every count. */
  lemma InfoAsWrittenMisreports(count: nat, now: string)
    ensures InfoPageAsWritten(count, now) != InfoPage(count, now)
    ensures forall other: nat :: InfoPageAsWritten(other, now) == InfoPageAsWritten(count, now)
  {
    var h := |InfoHead|;
    assert InfoPageAsWritten(count, now)[h] == 'u';
    assert InfoPage(count, now)[h] == DecimalDigits(count)[0];
  }

  /** The intended page tells collections of different sizes apart. */
  lemma InfoPageDistinguishesCounts(c1: nat, c2: nat, now: string)
    requires c1 != c2
    ensures InfoPage(c1, now) != InfoPage(c2, now)
  {
    var p1, p2 := InfoPage(c1, now), InfoPage(c2, now);
    var d1, d2 := DecimalDigits(c1), DecimalDigits(c2);
    assert DigitsValue(d1) == c1 && DigitsValue(d2) == c2;
    DigitFieldsDiffer(p1, p2, |InfoHead|, d1, d2);
  }

  /**
   * Two texts that hold different digit strings at the same position, each
   * followed by a space, differ.
   */
  lemma DigitFieldsDiffer(p1: string, p2: string, h: nat, d1: string, d2: string)
    requires d1 != d2
    requires forall i :: 0 <= i < |d1| ==> '0' <= d1[i] <= '9'
    requires forall i :: 0 <= i < |d2| ==> '0' <= d2[i] <= '9'
    requires h + |d1| < |p1| && p1[h..h + |d1|] == d1 && p1[h + |d1|] == ' '
    requires h + |d2| < |p2| && p2[h..h + |d2|] == d2 && p2[h + |d2|] == ' '
    ensures p1 != p2
  {
    if |d1| < |d2| {
      assert p2[h + |d1|] == p2[h..h + |d2|][|d1|];
    } else if |d2| < |d1| {
      assert p1[h + |d2|] == p1[h..h + |d1|][|d2|];
    }
  }

  // ---------------------------------------------------------------------------
  // The application: body parser, routes, unknownEndpoint, errorHandler
  // ---------------------------------------------------------------------------

  /** The handler a route leads to, before any error reaches errorHandler. */
  function Dispatch(store: Store, route: Route, name: Option<string>, number: Option<string>,
                 newId: ObjectId, order: seq<ObjectId>): (r: Transition)
    requires route.ListPersons? ==> Enumerates(order, store)
    ensures route.ListPersons? || route.ShowPerson? || route.ShowInfo? || route.Unmatched? ==> r.store == store
    ensures r.outcome.Next? ==> r.outcome.error.name in {"CastError", "ValidationError"}
  {
    match route
    case ListPersons => Transition(store, Respond(ListStep(store, order)))
    case ShowPerson(raw) => Transition(store, ShowStep(store, raw))
    case DeletePerson(raw) => DeleteStep(store, raw)
    case CreatePerson => CreateStep(store, name, number, newId)
    case UpdatePerson(raw) => UpdateStep(store, raw, name, number)
    case ShowInfo(now) => Transition(store, Respond(InfoStep(store, now)))
    case Unmatched => Transition(store, Respond(UnknownEndpoint()))
  }

  /**
   * One request through the whole middleware stack: a body that does not
   * parse goes straight to errorHandler; otherwise the route's handler runs,
   * and an error it passes on goes to errorHandler.
   */
  function Serve(store: Store, req: Request, newId: ObjectId, order: seq<ObjectId>): (r: Transition)
    requires req.payload.Fields? && req.route.ListPersons? ==> Enumerates(order, store)
    ensures r.outcome.Respond?
    ensures req.payload.Unparseable? ==> r.store == store
  {
    match req.payload
    case Unparseable => Transition(store, ErrorHandler(BodySyntaxError))
    case Fields(name, number) =>
      var t := Dispatch(store, req.route, name, number, newId, order);
      if t.outcome.Next? then Transition(t.store, ErrorHandler(t.outcome.error)) else t
  }

  // ---------------------------------------------------------------------------
  // Properties
  // ---------------------------------------------------------------------------

  /** Every stored id is in canonical form and every stored person passes the schema. */
  ghost predicate WellFormedStore(store: Store)
  {
    forall id :: id in store ==> IsCanonicalId(id) && SchemaValid(store[id])
  }

  /** No two stored persons share a name. */
  ghost predicate UniqueNames(store: Store)
  {
    forall a, b :: a in store && b in store && a != b ==> store[a].name != store[b].name
  }

  lemma {:induction false} DistinctLength(order: seq<ObjectId>)
    requires forall i, j :: 0 <= i < j < |order| ==> order[i] != order[j]
    ensures |set i | 0 <= i < |order| :: order[i]| == |order|
  {
    if order != [] {
      var last := |order| - 1;
      DistinctLength(order[..last]);
      var front := set i | 0 <= i < last :: order[..last][i];
      assert (set i | 0 <= i < |order| :: order[i]) == front + {order[last]};
      assert order[last] !in front;
    }
  }

  /** GET /api/persons returns one entry per stored person, each exactly as GET by id would. */
  lemma ListHasEveryPerson(store: Store, order: seq<ObjectId>)
    requires Enumerates(order, store)
    ensures |ListStep(store, order).body.entries| == |store|
    ensures forall id :: id in store ==> Entry(id, store[id]) in ListStep(store, order).body.entries
  {
    var entries := ListStep(store, order).body.entries;
    DistinctLength(order);
    assert (set i | 0 <= i < |order| :: order[i]) == store.Keys;
    forall id | id in store
      ensures Entry(id, store[id]) in entries
    {
      var i :| 0 <= i < |order| && order[i] == id;
      assert entries[i] == Entry(id, store[id]);
    }
  }

  lemma CreateKeepsWellFormed(store: Store, name: Option<string>, number: Option<string>, newId: ObjectId)
    requires WellFormedStore(store) && IsCanonicalId(newId)
    ensures WellFormedStore(CreateStep(store, name, number, newId).store)
  {
    var t := CreateStep(store, name, number, newId);
    if t.store != store {
      var p := Person(name.value, number.value);
      assert t.store == store[newId := p] && SchemaValid(p);
    }
  }

  lemma UpdateKeepsWellFormed(store: Store, raw: string, name: Option<string>, number: Option<string>)
    ensures WellFormedStore(store) ==> WellFormedStore(UpdateStep(store, raw, name, number).store)
  {
    var t := UpdateStep(store, raw, name, number);
    if WellFormedStore(store) && t.store != store {
      var p := Person(name.value, number.value);
      assert t.store == store[CastId(raw).value := p] && SchemaValid(p);
    }
  }

  /** Requests keep the collection well formed, provided new ids come in canonical form. */
  lemma ServePreservesWellFormed(store: Store, req: Request, newId: ObjectId, order: seq<ObjectId>)
    requires req.payload.Fields? && req.route.ListPersons? ==> Enumerates(order, store)
    requires WellFormedStore(store) && IsCanonicalId(newId)
    ensures WellFormedStore(Serve(store, req, newId, order).store)
  {
    if req.payload.Fields? {
      var name, number := req.payload.name, req.payload.number;
      var t := Dispatch(store, req.route, name, number, newId, order);
      assert Serve(store, req, newId, order).store == t.store;
      match req.route
      case CreatePerson => CreateKeepsWellFormed(store, name, number, newId);
      case UpdatePerson(raw) => UpdateKeepsWellFormed(store, raw, name, number);
      case DeletePerson(raw) => assert t.store == store || t.store == store - {CastId(raw).value};
      case _ => assert t.store == store;
    }
  }

  /** POST keeps names unique: it refuses a name already stored. */
  lemma CreatePreservesUniqueNames(store: Store, name: Option<string>, number: Option<string>, newId: ObjectId)
    requires UniqueNames(store) && newId !in store
    ensures UniqueNames(CreateStep(store, name, number, newId).store)
  {
    var s := CreateStep(store, name, number, newId).store;
    if s != store {
      forall a, b | a in s && b in s && a != b
        ensures s[a].name != s[b].name
      {
        if a == newId || b == newId {
          var other := if a == newId then b else a;
          assert other in store && store[other].name != name.value;
        }
      }
    }
  }

  /** A successful POST stores exactly one new person under an id not used before. */
  lemma CreateAddsExactlyOne(store: Store, name: Option<string>, number: Option<string>, newId: ObjectId)
    requires newId !in store
    requires CreateStep(store, name, number, newId).store != store
    ensures var s := CreateStep(store, name, number, newId).store;
            && s.Keys == store.Keys + {newId}
            && |s| == |store| + 1
            && s[newId] == Person(name.value, number.value)
            && (forall id :: id in store ==> s[id] == store[id])
  {
  }

  /**
   * PUT does not check names: giving one stored person the name of another
   * succeeds, and the collection then holds two persons of that name.
   */
  lemma UpdateCanDuplicateNames(store: Store, a: ObjectId, b: ObjectId, number: string)
    requires a in store && b in store && a != b && IsCanonicalId(b)
    requires SchemaValid(Person(store[a].name, number))
    ensures var t := UpdateStep(store, b, Some(store[a].name), Some(number));
            && t.outcome == Respond(Found(b, Person(store[a].name, number)))
            && !UniqueNames(t.store)
  {
    CastCanonical(b);
    var s := UpdateStep(store, b, Some(store[a].name), Some(number)).store;
    assert s[a].name == s[b].name;
  }

  /** GET by id after DELETE of the same id answers 404. */
  lemma ShowAfterDelete(store: Store, raw: string)
    requires IsHexId(raw)
    ensures ShowStep(DeleteStep(store, raw).store, raw) == Respond(NotFound)
  {
  }

  /**
   * PUT on an id that is not stored creates nothing: a complete, valid record
   * answers 404, missing fields answer 400, and an invalid record is a
   * ValidationError.
   */
  lemma UpdateAbsentCreatesNothing(store: Store, raw: string, name: Option<string>, number: Option<string>)
    requires IsHexId(raw) && CastId(raw).value !in store
    ensures UpdateStep(store, raw, name, number).store == store
    ensures Supplied(name) && Supplied(number) && SchemaValid(Person(name.value, number.value)) ==>
              UpdateStep(store, raw, name, number).outcome == Respond(NotFound)
    ensures UpdateStep(store, raw, name, number).outcome.Respond? ==>
              UpdateStep(store, raw, name, number).outcome.response.status in {400, 404}
  {
  }

  /** A created person shows up, with its new id, in the next GET /api/persons. */
  lemma CreatedPersonIsListed(store: Store, name: string, number: string, newId: ObjectId, order: seq<ObjectId>)
    requires Supplied(Some(name)) && Supplied(Some(number))
    requires !NameTaken(store, name) && SchemaValid(Person(name, number))
    requires Enumerates(order, CreateStep(store, Some(name), Some(number), newId).store)
    ensures var s := CreateStep(store, Some(name), Some(number), newId).store;
            Entry(newId, Person(name, number)) in ListStep(s, order).body.entries
  {
    var s := CreateStep(store, Some(name), Some(number), newId).store;
    assert s == store[newId := Person(name, number)];
    ListHasEveryPerson(s, order);
    assert newId in s && s[newId] == Person(name, number);
  }

  /**
   * POST of a free name whose record the schema rejects answers, through
   * errorHandler, 400 with the ValidationError message listing the failing
   * paths, and stores nothing. "39-44-5323523" is such a number (see
   * RejectsTwoHyphens).
   */
  lemma CreateInvalidAnswers400(store: Store, name: string, number: string, newId: ObjectId, order: seq<ObjectId>)
    requires name != "" && number != "" && !NameTaken(store, name)
    requires !SchemaValid(Person(name, number))
    ensures var errors := Validate(Some(name), Some(number));
            && errors != []
            && Serve(store, Request(CreatePerson, Fields(Some(name), Some(number))), newId, order)
               == Transition(store, Respond(Response(400, ErrorJson(ValidationError(SavePrefix, errors).message))))
  {
  }

  /** Any path no route serves answers 404 "unknown endpoint" and changes nothing. */
  lemma UnmatchedAnswers404(store: Store, name: Option<string>, number: Option<string>, newId: ObjectId, order: seq<ObjectId>)
    ensures Serve(store, Request(Unmatched, Fields(name, number)), newId, order)
            == Transition(store, Respond(Response(404, ErrorJson("unknown endpoint"))))
  {
  }

  /** A body that is not JSON answers 400 "malformatted body" on every route and changes nothing. */
  lemma UnparseableBodyAnswers400(store: Store, route: Route, newId: ObjectId, order: seq<ObjectId>)
    ensures Serve(store, Request(route, Unparseable), newId, order)
            == Transition(store, Respond(Response(400, ErrorJson("malformatted body"))))
  {
  }

  /**
   * An `:id` that is not an ObjectId answers 400 "malformatted id" on GET,
   * DELETE and (once both fields are given) PUT, and changes nothing.
   */
  lemma MalformedIdAnswers400(store: Store, raw: string, name: Option<string>, number: Option<string>,
                              newId: ObjectId, order: seq<ObjectId>)
    requires !IsHexId(raw)
    ensures var malformed := Transition(store, Respond(Response(400, ErrorJson("malformatted id"))));
            && Serve(store, Request(ShowPerson(raw), Fields(name, number)), newId, order) == malformed
            && Serve(store, Request(DeletePerson(raw), Fields(name, number)), newId, order) == malformed
            && (Supplied(name) && Supplied(number) ==>
                  Serve(store, Request(UpdatePerson(raw), Fields(name, number)), newId, order) == malformed)
  {
  }
}
