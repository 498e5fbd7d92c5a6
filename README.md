# Phonebook REST API — a Dafny model

This project models the phonebook back end of `index.js` and `models/person.js`. It is an Express application that keeps a collection of persons, each with a `name` and a phone `number`, in MongoDB through Mongoose. It serves:

- `GET /api/persons`: list every person;
- `GET /api/persons/:id`: show one person;
- `DELETE /api/persons/:id`: remove one person;
- `POST /api/persons`: create a person, refusing a name already stored;
- `PUT /api/persons/:id`: replace one person's name and number;
- `GET /info`: a small HTML page meant to show the number of persons and the date (see "## Findings").

Every other path that no file under `build` serves (`express.static('build')`, index.js:26) answers 404 `unknown endpoint`. Errors a handler passes to `next` go to `errorHandler`. It answers 400 for a malformed `:id` (CastError), a malformed JSON body (SyntaxError) and a failed schema validation (ValidationError).

The model has five modules:

- `Wrappers`: `Option`.
- `ObjectIds`: how an `:id` route parameter is cast to an ObjectId. 24 hex digits cast to their lower-case form; anything else is a CastError.
- `PersonSchema`: the Person schema.
  - The `number` validator, built on a model of `String.prototype.split`.
  - Mongoose's `required` / `minlength` / custom-validator checks, with the order in which they run.
  - The `toJSON` transform.
- `Handlers`: every route handler, `errorHandler` and `unknownEndpoint`, each as a pure step function. A step takes the collection (a map from ObjectId to Person) and the request, and returns the new collection and either a response or an error passed to `next`. `Serve` chains the body parser, the route and `errorHandler`. The properties of the service are proved here as lemmas.
- `App`: `class Phonebook`, the running application. Its `persons` field is the collection the handlers change in place. Each method is proved to produce exactly what the corresponding step of `Handlers` produces, and never to reuse an id. The application starts from whatever the database already holds, which may include records the current schema rejects. A collection that is well formed stays well formed:
  - every id is canonical;
  - every record passes the schema.

Where the code and its own comments disagree, the model follows the code:

- The `number` validator's comments say "digits". The code only compares lengths, so `"ab-cdefghi"` is accepted (`AcceptsLetters`).
- Those lengths are JavaScript `length`s, which count UTF-16 code units; a character outside the Basic Multilingual Plane counts twice. The model counts the same way (`PersonSchema.JsLength`), so `"\u{1F600}-1234567"` is a valid number (`AcceptsAstralFirstPart`).
- `"39-44-5323523"` has two hyphens. It splits into three parts, so the validator rejects it (`RejectsTwoHyphens`).
- In the model, names are kept unique only by POST's `findOne` check. PUT performs no such check, so in the model it can give two persons the same name (`UpdateCanDuplicateNames`). In the program, `unique: true` (models/person.js:18) makes Mongoose build a unique index on `name`; once that index is built, such a PUT fails with a duplicate-key error, which `errorHandler` passes on. The index is not part of this model.

## Model

| member | source | states |
|---|---|---|
| PersonSchema.Split | models/person.js:30 | `v.split('-')` yields one more part than there are separators, no part contains the separator, and joining the parts with the separator gives back the input |
| PersonSchema.SplitWithoutSeparator | models/person.js:30 | a string without the separator splits into itself alone |
| PersonSchema.SplitAroundOneSeparator | models/person.js:30 | `a + '-' + b` with no hyphen in `a` or `b` splits into exactly `[a, b]` |
| PersonSchema.JsLength | models/person.js:36-40 | JavaScript's `length` of a string: at least its number of characters and at most twice that |
| PersonSchema.JsLengthAppend | models/person.js:36-40 | the length of a concatenation is the sum of the lengths |
| PersonSchema.JsLengthBmp | models/person.js:36-40 | for text inside the Basic Multilingual Plane, `length` equals the number of characters |
| PersonSchema.SameWidthsSameLength | models/person.js:36-40 | strings whose characters take the same number of code units, position by position, have the same `length` |
| PersonSchema.ValidNumber | models/person.js:26-45 | the validator, branch for branch, with lengths in UTF-16 code units; an accepted number has exactly one hyphen and a `length` of 10 to 12 |
| PersonSchema.OneHyphenSplits | models/person.js:30-35 | a value that splits into two parts has its only hyphen right after the first part; the parts are the text before and after it |
| PersonSchema.ShapeIsAccepted | models/person.js:30-44 | a single hyphen with 2 to 3 code units before it and 7 to 8 after it is accepted |
| PersonSchema.ValidNumberIffShape | models/person.js:26-45 | the validator accepts exactly the strings with a single hyphen, 2 to 3 code units before it and 7 to 8 after it (both directions) |
| PersonSchema.ShapeCarriesOver | models/person.js:26-45 | the accepted shape carries over to a string with hyphens at the same places and characters of the same widths |
| PersonSchema.VerdictDependsOnlyOnHyphens | models/person.js:26-45 | two strings with hyphens in the same places and characters of the same UTF-16 widths get the same verdict, whatever their other characters |
| PersonSchema.PartsAccepted | models/person.js:30-44 | two hyphen-free parts of `length` 2 to 3 and 7 to 8, joined by a hyphen, are accepted |
| PersonSchema.AcceptsDigits | models/person.js:27-29 | `040-1234567`, the shape the comments describe, is accepted |
| PersonSchema.AcceptsLetters | models/person.js:36-42 | `ab-cdefghi` is accepted, because only lengths are checked and not digits |
| PersonSchema.AcceptsAstralFirstPart | models/person.js:36-38 | one character outside the Basic Multilingual Plane has `length` 2, so it is a valid first part |
| PersonSchema.RejectsShortNumbers | models/person.js:24-42 | a number without a hyphen, and one whose second part has six characters, are rejected |
| PersonSchema.RejectsTwoHyphens | models/person.js:30-33 | `39-44-5323523` is rejected: three parts |
| PersonSchema.RejectsOneCharFirstPart | models/person.js:36-38 | a first part of one character is rejected |
| PersonSchema.RejectsFourCharFirstPart | models/person.js:36-38 | a first part of four characters is rejected |
| PersonSchema.Supplied | models/person.js:17-23 | Mongoose's `required` on a String path: passes iff a value is given and its JavaScript `length` is positive, so an absent value and `""` both fail |
| PersonSchema.NameViolation | models/person.js:15-20 | `name` passes iff it is a non-empty string of `length` at least 3; an absent or empty name is reported as `required`, a shorter one as `minlength` 3 with its value |
| PersonSchema.AstralNameIsLongEnough | models/person.js:19 | two characters outside the Basic Multilingual Plane make a name of `length` 4, which passes `minlength: 3` |
| PersonSchema.NumberViolation | models/person.js:21-47 | `number` passes iff it is a non-empty string the validator accepts; an absent or empty number is reported as `required`, one of `length` below 8 as `minlength` 8, and any other rejected one as failing the validator, each with its value |
| PersonSchema.Validate | models/person.js:14-48 | a would-be document has no errors iff both fields pass; `name`'s violation is listed first iff `name` fails and `number`'s last iff `number` fails, each exactly as the field's rule reports it; no path is listed twice, so a POST whose two fields both fail reports both |
| PersonSchema.NumberMinLengthImplied | models/person.js:24-45 | a number the validator accepts has `length` at least 8, so `minlength: 8` never rejects it |
| PersonSchema.StoredDocument | models/person.js:14-48 | a stored person document has exactly the keys `_id`, `name`, `number` and `__v` |
| PersonSchema.ToJson | models/person.js:50-56 | the transform adds `id` as the string form of `_id`, drops `_id` and `__v`, and leaves every other key unchanged |
| PersonSchema.PersonToJson | models/person.js:50-56 | a client sees exactly `{id, name, number}` for a stored person |
| ObjectIds.LowerHex | index.js:39 | lower-cases one hex digit and leaves lower-case digits alone |
| ObjectIds.CastId | index.js:39 | an `:id` casts iff it is 24 hex digits; the result is canonical and equals the parameter lower-cased, position by position |
| ObjectIds.CastCanonical | index.js:39 | an id in stored form casts to itself |
| ObjectIds.CastIgnoresCase | index.js:39 | parameters that differ only in the case of their hex letters name the same record |
| Handlers.Rendered | index.js:46 | `res.json(person)` sends exactly `{id, name, number}` |
| Handlers.DecimalDigits | index.js:111 | a non-negative integer prints as one or more decimal digits, a single digit exactly when it is below 10, with no leading zero |
| Handlers.DecimalDigitsRoundTrip | index.js:111 | reading the printed digits back gives the number |
| Handlers.CastError | index.js:39 | the error a malformed `:id` raises is named `CastError` |
| Handlers.ViolationMessage | index.js:165-166 | Mongoose's message for one failing path starts with the rule's lead-in and names the path |
| Handlers.ListViolations | index.js:165-166 | the listing is empty only when nothing failed, and starts with the first failing path and `: ` |
| Handlers.JoinedPosition | index.js:165-166 | each message joined with `, ` appears in the joined text, at a position the lemma names |
| Handlers.ListViolationsListsEvery | index.js:165-166 | every failing path's `path: message` appears in the listing the client receives |
| Handlers.ValidationError | index.js:165-166 | a failed validation is an error named `ValidationError` whose message starts with the save or update prefix |
| Handlers.ErrorHandler | index.js:154-170 | answers iff the error's name is CastError, SyntaxError or ValidationError, always with 400 and the message for each; any other error is passed on unchanged |
| Handlers.UnknownEndpoint | index.js:147-149 | answers 404 with `unknown endpoint` |
| Handlers.ListStep | index.js:29-32 | answers 200 with one entry per id of the database's order; entry i is the person stored under the i-th id, under that id, and nothing else is listed |
| Handlers.ShowStep | index.js:35-50 | 200 with the record iff the id casts and is stored; otherwise 404 `Person not found`, or, exactly when the id is malformed, the CastError for that id passed to `next` |
| Handlers.DeleteStep | index.js:53-69 | a stored id is removed and answered 204; 404 iff the id is well formed but not stored; a malformed id is a CastError with the collection unchanged; the collection changes iff the answer is 204 |
| Handlers.NameTaken | index.js:81 | `findOne({ name })` finds something iff some stored person has that name |
| Handlers.CreateStep | index.js:71-105 | missing fields give 400, a taken name gives 400 `Name already exists`, a supplied, unused name and number that fail the schema give a ValidationError (prefix `Person validation failed`) listing exactly the schema's violations, with the collection unchanged; 200 iff all checks pass, and then the new person is stored under the new id and sent back |
| Handlers.UpdateStep | index.js:116-145 | the set of ids never changes and no other record changes; missing fields answer 400; with both fields given, a malformed id is a CastError, an invalid record a ValidationError (update prefix), a valid record for an id not stored answers 404, and a valid record for a stored id overwrites it and is sent back with 200 |
| Handlers.ListHasEveryPerson | index.js:29-32 | GET `/api/persons` returns one entry per stored person, each with its id and record |
| Handlers.Dispatch | index.js:28-152 | the read-only routes (list, show, `/info`, unknown paths) leave the collection unchanged; every error a route passes on is a CastError or a ValidationError |
| Handlers.Serve | index.js:23-173 | within the model, every request ends in a response, because every error a route or the body parser raises is one `errorHandler` answers; an unparseable body changes nothing |
| Handlers.CreateKeepsWellFormed | index.js:92-104 | POST stores only canonical ids and records that pass the schema |
| Handlers.UpdateKeepsWellFormed | index.js:126-132 | PUT stores only records that pass the schema |
| Handlers.ServePreservesWellFormed | index.js:28-173 | every request keeps the collection well formed |
| Handlers.CreatePreservesUniqueNames | index.js:80-87 | POST keeps names unique |
| Handlers.CreateAddsExactlyOne | index.js:92-101 | a successful POST adds exactly one record under a fresh id and changes no other |
| Handlers.UpdateCanDuplicateNames | index.js:116-145 | PUT with another person's name succeeds and leaves two persons of that name |
| Handlers.ShowAfterDelete | index.js:35-69 | GET by id after DELETE of that id answers 404 |
| Handlers.UpdateAbsentCreatesNothing | index.js:127-139 | PUT on a well-formed id that is not stored never creates it; with both fields given and a valid record it answers 404, and any answer is 400 or 404 |
| Handlers.CreatedPersonIsListed | index.js:29-105 | a person created by POST appears, under its new id, in the next listing |
| Handlers.CreateInvalidAnswers400 | index.js:99-104 | POST of a free name with a record the schema rejects answers 400 with the ValidationError message and stores nothing |
| Handlers.UnmatchedAnswers404 | index.js:147-152 | every other path that no file under `build` serves answers 404 `unknown endpoint` and changes nothing |
| Handlers.UnparseableBodyAnswers400 | index.js:161-163 | a body that is not JSON answers 400 `malformatted body` on every route |
| Handlers.MalformedIdAnswers400 | index.js:157-159 | a malformed `:id` answers 400 `malformatted id` on GET, DELETE and PUT, and changes nothing |
| Handlers.InfoAsWrittenMisreports | index.js:109-111 | the `/info` page as written is the same for every count, and differs from the intended page |
| Handlers.InfoPageAsWritten | index.js:111 | where the count should be, the page as written prints `undefined` |
| Handlers.InfoPage | index.js:110-113 | the corrected page shows the count's digits right after the fixed head, followed by a space, and reading them back gives the count |
| Handlers.InfoStep | index.js:107-114 | `/info` answers 200 with an HTML page whose digits after the fixed head read back as the number of stored persons |
| Handlers.DigitFieldsDiffer | index.js:111 | two texts holding different digit strings at the same place, each followed by a space, differ |
| Handlers.InfoPageDistinguishesCounts | index.js:110-113 | the corrected page differs for collections of different sizes |
| App.Phonebook.constructor | models/person.js:5-12 | the application starts from whatever records the database already holds, with no assumption that they pass the schema; their ids count as handed out |
| App.Phonebook.ListAll | index.js:29-32 | the loop lists the collection in some order that visits every id exactly once, and the response is the listing step's |
| App.Phonebook.Show | index.js:35-50 | the response is the show step's; the collection is not touched |
| App.Phonebook.Info | index.js:107-114 | the response is the `/info` step's, on the current count |
| App.Phonebook.Delete | index.js:53-69 | the new collection and outcome are the delete step's; a well-formed collection stays well formed |
| App.Phonebook.Create | index.js:71-105 | the new collection and outcome are the create step's; the new id is recorded as used exactly when `new Person` runs, after both guards pass; a well-formed collection stays well formed |
| App.Phonebook.Update | index.js:116-145 | the new collection and outcome are the update step's; a well-formed collection stays well formed |
| App.Phonebook.RouteRead | index.js:28-152 | on the read-only routes (list, show, `/info`, unmatched paths) the handler's answer is exactly what `Dispatch` gives, and the collection is left as it was |
| App.Phonebook.RouteRequest | index.js:28-152 | running the handler a route leads to (or `unknownEndpoint`) gives exactly what `Dispatch` gives; a listing visits every stored id once; a well-formed collection stays well formed |
| App.Phonebook.Handle | index.js:23-173 | one request through the body parser, the routes, `unknownEndpoint` and `errorHandler` gives exactly what `Serve` gives; a well-formed collection stays well formed |
| App.ListedStep | index.js:30-31 | adding one more id to a partial listing keeps it a listing without repeats |

## Findings

| source | as written | input that shows it | evidently intended | confidence | as-written member | corrected member |
|---|---|---|---|---|---|---|
| index.js:109-111 | `countDocuments()` resolves to a number, and the page prints that number's `length`, which is `undefined` | any collection, e.g. two stored persons: the page reads "Phonebook has info for undefined people" | the page shows the number of stored persons | high; not executed | Handlers.InfoAsWrittenMisreports | Handlers.InfoPageDistinguishesCounts |

The model serves `/info` with the corrected page (`Handlers.InfoPage`).

## Left out

- The database connection (models/person.js:3-12), `dotenv` and `app.listen` (index.js:5, 175-179) are left out. The collection is the `persons` field.
- Morgan logging, CORS and the static `build` directory (index.js:8-26) are left out: they do not change what an API route answers. `console.error` in `errorHandler` is also left out.
- The unique index on `name` (models/person.js:18) is left out. It is enforced by MongoDB, not by Mongoose validation. Without it, PUT can store a duplicate name; with it, such a PUT fails with a duplicate-key error that `errorHandler` passes on to Express's default handler.
- POST where `findOne` itself throws (index.js:88-90) is not modelled. That path calls `next` and then goes on to save, which would answer twice. A lookup on the map cannot fail.
- Request bodies are modelled only as absent or string-valued `name`/`number` fields. JSON bodies with non-string values, and Mongoose's casting of them to strings, are left out.
- ObjectIds.CastId: only the 24-hex-digit form is accepted. Other inputs Mongoose may cast (12-byte strings, objects) are treated as CastErrors.
- App.Phonebook.ListAll: the order in which MongoDB returns documents is not modelled. It is a ghost out-parameter, constrained only to list each stored id once.
- App.Phonebook.Create: new ObjectIds come from the caller as `newId`. The generator is only assumed to give canonical ids that were never handed out before.
- The date on `/info` is the parameter `now`, the string the clock's `Date` prints. The clock and date formatting are left out.
- App.Phonebook.Handle: an error `errorHandler` passes on goes to Express's default handler, which answers 500 with an HTML page. The model stops at `Next(error)`. `Handlers.Serve` shows that no error the model can raise reaches that point.
- Body-parser errors other than a SyntaxError are not modelled: an over-limit body (413) or an unsupported charset (415) has another name, so `errorHandler` passes it on to Express's default handler. The model's payload is either parsed fields or a SyntaxError.
- Handlers.UpdateStep: Mongoose's order for `findByIdAndUpdate` is modelled as cast the id, then run the update validators, then look up the record. So a malformed update of a missing id gives a ValidationError rather than 404.
- Handlers.ValidationError: the message follows Mongoose's default templates for `required`, `minlength` and custom validators, with `name` before `number`. Mongoose's internal ordering of the error paths is not modelled beyond that.
- Handlers.CastError and the SyntaxError message: only the error's `name` matters to `errorHandler`. The message texts are given as Mongoose and `express.json()` word them, and their exact wording is not modelled.
- Strings are sequences of Unicode scalar values. JavaScript strings holding unpaired surrogates (such as a JSON body with a `"\uD800"` escape) are not modelled; `PersonSchema.JsLength` counts them correctly only for well-formed text.
- Static files: a request for a path that a file under `build` serves (index.js:26) answers with that file before any route runs. The model's `Unmatched` route stands for paths that no such file serves.
- Route matching is a datatype of matched routes plus `Unmatched`. Express's path parsing and HTTP methods on unmatched paths are left out.
- PersonSchema.StoredDocument: the version key `__v` is always 0. Updates are modelled as overwrites, not as versioned writes.
