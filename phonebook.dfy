/**
 * The running application of index.js: one shared person collection that the
 * route handlers read and change in place. Each method does what its handler
 * does and is proved to agree with the corresponding step of the Handlers
 * module, whose properties are proved there.
 */
module App {
  import opened Wrappers
  import opened ObjectIds
  import opened PersonSchema
  import opened Handlers

  class Phonebook {
    /** The person collection, keyed by ObjectId. */
    var persons: Store
    /** Every id the ObjectId generator has handed out so far. */
    ghost var issued: set<ObjectId>

    ghost predicate Valid()
      reads this
    {
      persons.Keys <= issued
    }

    /**
     * The application connected to a database that already holds `stored`.
     * Those records may predate the schema or come from another client, so
     * nothing is assumed about them.
     */
    constructor (stored: Store)
      ensures Valid() && persons == stored && issued == stored.Keys
    {
      persons := stored;
      issued := stored.Keys;
    }

    /** GET /api/persons: builds the JSON array one stored person at a time. */
    method ListAll() returns (res: Response, ghost order: seq<ObjectId>)
      requires Valid()
      ensures Enumerates(order, persons)
      ensures res == ListStep(persons, order)
    {
      var remaining := persons.Keys;
      var entries: seq<Entry> := [];
      order := [];
      while remaining != {}
        invariant Listed(persons, remaining, order, entries)
        decreases remaining
      {
        var id :| id in remaining;
        ListedStep(persons, remaining, order, entries, id);
        entries := entries + [Entry(id, persons[id])];
        order := order + [id];
        remaining := remaining - {id};
      }
      res := Response(200, PersonArray(entries));
      assert entries == ListStep(persons, order).body.entries;
    }

    /** GET /api/persons/:id. */
    method Show(raw: string) returns (out: Outcome)
      requires Valid()
      ensures out == ShowStep(persons, raw)
    {
      var id := CastId(raw);
      if id.None? {
        return Next(CastError(raw));
      }
      if id.value !in persons {
        return Respond(NotFound);
      }
      out := Respond(Found(id.value, persons[id.value]));
    }

    /** GET /info: the page for the collection as it is `now`. */
    method Info(now: string) returns (res: Response)
      requires Valid()
      ensures res == InfoStep(persons, now)
    {
      var count := |persons|;
      res := Response(200, Html(InfoPage(count, now)));
    }

    /** DELETE /api/persons/:id: `findByIdAndRemove`, then 404 or 204. */
    method Delete(raw: string) returns (out: Outcome)
      requires Valid()
      modifies this
      ensures Valid() && issued == old(issued)
      ensures WellFormedStore(old(persons)) ==> WellFormedStore(persons)
      ensures Transition(persons, out) == DeleteStep(old(persons), raw)
    {
      var id := CastId(raw);
      if id.None? {
        return Next(CastError(raw));
      }
      if id.value !in persons {
        return Respond(NotFound);
      }
      persons := persons - {id.value};
      out := Respond(Response(204, NoContent));
    }

    /**
     * POST /api/persons. `newId` is the ObjectId the generator gives the new
     * document; the generator never hands out an id twice.
     */
    method Create(name: Option<string>, number: Option<string>, newId: ObjectId) returns (out: Outcome)
      requires Valid() && IsCanonicalId(newId) && newId !in issued
      modifies this
      ensures Valid()
      ensures issued == if Supplied(name) && Supplied(number) && !NameTaken(old(persons), name.value)
                        then old(issued) + {newId} else old(issued)
      ensures WellFormedStore(old(persons)) ==> WellFormedStore(persons)
      ensures Transition(persons, out) == CreateStep(old(persons), name, number, newId)
    {
      if WellFormedStore(persons) {
        CreateKeepsWellFormed(persons, name, number, newId);
      }
      if !Supplied(name) || !Supplied(number) {
        return Respond(MissingFields);
      }
      var alreadyExists := exists id | id in persons :: persons[id].name == name.value;
      if alreadyExists {
        return Respond(NameExists);
      }
      // `new Person(...)`: the generator hands out `newId` here, before validation.
      issued := issued + {newId};
      var errors := Validate(name, number);
      if errors != [] {
        return Next(ValidationError(SavePrefix, errors));
      }
      var person := Person(name.value, number.value);
      persons := persons[newId := person];
      out := Respond(Found(newId, person));
    }

    /** PUT /api/persons/:id: `findByIdAndUpdate` with the update validators on. */
    method Update(raw: string, name: Option<string>, number: Option<string>) returns (out: Outcome)
      requires Valid()
      modifies this
      ensures Valid() && issued == old(issued)
      ensures WellFormedStore(old(persons)) ==> WellFormedStore(persons)
      ensures Transition(persons, out) == UpdateStep(old(persons), raw, name, number)
    {
      if !Supplied(name) || !Supplied(number) {
        return Respond(MissingFields);
      }
      var id := CastId(raw);
      if id.None? {
        return Next(CastError(raw));
      }
      var errors := Validate(name, number);
      if errors != [] {
        return Next(ValidationError(UpdatePrefix, errors));
      }
      if id.value !in persons {
        return Respond(NotFound);
      }
      var person := Person(name.value, number.value);
      UpdateKeepsWellFormed(persons, raw, name, number);
      ghost var step := UpdateStep(persons, raw, name, number);
      assert step.store == persons[id.value := person];
      persons := persons[id.value := person];
      assert persons.Keys == old(persons).Keys;
      out := Respond(Found(id.value, person));
    }

    /** The routes that only read the collection: listing, one person, `/info` and unknown paths. */
    method RouteRead(route: Route, name: Option<string>, number: Option<string>, newId: ObjectId)
      returns (routed: Outcome, ghost order: seq<ObjectId>)
      requires Valid()
      requires route.ListPersons? || route.ShowPerson? || route.ShowInfo? || route.Unmatched?
      ensures route.ListPersons? ==> Enumerates(order, persons)
      ensures Transition(persons, routed) == Dispatch(persons, route, name, number, newId, order)
    {
      order := [];
      match route {
        case ListPersons =>
          var res;
          res, order := ListAll();
          routed := Respond(res);
        case ShowPerson(raw) =>
          routed := Show(raw);
        case ShowInfo(now) =>
          var res := Info(now);
          routed := Respond(res);
        case Unmatched =>
          routed := Respond(UnknownEndpoint());
      }
    }

    /** The handler `route` leads to, before errorHandler sees what it passes on. */
    method RouteRequest(route: Route, name: Option<string>, number: Option<string>, newId: ObjectId)
      returns (routed: Outcome, ghost order: seq<ObjectId>)
      requires Valid()
      requires route.CreatePerson? ==> IsCanonicalId(newId) && newId !in issued
      modifies this
      ensures Valid() && old(issued) <= issued
      ensures WellFormedStore(old(persons)) ==> WellFormedStore(persons)
      ensures route.ListPersons? ==> Enumerates(order, old(persons))
      ensures Transition(persons, routed) == Dispatch(old(persons), route, name, number, newId, order)
    {
      order := [];
      match route {
        case DeletePerson(raw) =>
          routed := Delete(raw);
        case CreatePerson =>
          routed := Create(name, number, newId);
        case UpdatePerson(raw) =>
          routed := Update(raw, name, number);
        case _ =>
          routed, order := RouteRead(route, name, number, newId);
      }
    }

    /**
     * One request through the application: the body parser, the route's
     * handler or unknownEndpoint, then errorHandler for anything passed to
     * `next`. `order` is the order in which a listing returned the persons.
     */
    method Handle(req: Request, newId: ObjectId) returns (out: Outcome, ghost order: seq<ObjectId>)
      requires Valid()
      requires req.route.CreatePerson? ==> IsCanonicalId(newId) && newId !in issued
      modifies this
      ensures Valid() && old(issued) <= issued
      ensures WellFormedStore(old(persons)) ==> WellFormedStore(persons)
      ensures req.payload.Fields? && req.route.ListPersons? ==> Enumerates(order, old(persons))
      ensures Transition(persons, out) == Serve(old(persons), req, newId, order)
    {
      order := [];
      if req.payload.Unparseable? {
        out := ErrorHandler(BodySyntaxError);
        return;
      }
      var routed;
      routed, order := RouteRequest(req.route, req.payload.name, req.payload.number, newId);
      out := if routed.Next? then ErrorHandler(routed.error) else routed;
    }
  }

  /**
   * Part way through a listing: `order` holds, without repeats, exactly the
   * ids no longer in `remaining`, and `entries` pairs each with its record.
   */
  ghost predicate Listed(store: Store, remaining: set<ObjectId>, order: seq<ObjectId>, entries: seq<Entry>)
  {
    && remaining <= store.Keys
    && (forall i :: 0 <= i < |order| ==> order[i] in store && order[i] !in remaining)
    && (forall id :: id in store && id !in remaining ==> id in order)
    && (forall i, j :: 0 <= i < j < |order| ==> order[i] != order[j])
    && |entries| == |order|
    && (forall i :: 0 <= i < |entries| ==> entries[i] == Entry(order[i], store[order[i]]))
  }

  lemma ListedStep(store: Store, remaining: set<ObjectId>, order: seq<ObjectId>, entries: seq<Entry>, id: ObjectId)
    requires Listed(store, remaining, order, entries) && id in remaining
    ensures Listed(store, remaining - {id}, order + [id], entries + [Entry(id, store[id])])
  {
    var order', entries' := order + [id], entries + [Entry(id, store[id])];
    assert forall i :: 0 <= i < |order| ==> order'[i] == order[i] && entries'[i] == entries[i];
  }
}
