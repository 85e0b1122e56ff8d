# Multiverse Diary — a verified model of its in-memory logic

Multiverse Diary is a browser journal: the user writes a diary entry, picks
some personas (built-in characters such as the teacher or the friend, or
custom ones the user creates), and a generative-text service answers with one
short comment per persona. An optional "emotional insight" report can be
attached to each entry. When the service fails, a deterministic keyword-based
responder supplies canned comments instead.

This project models, in Dafny, the parts of the app that are pure or
in-memory logic:

- `common.dfy` (`Common`): the JavaScript string primitives the app relies on
  — `slice(0, n)`, `trim()`, `includes`, `toLowerCase()`, and decimal
  formatting of integers — over `seq<char>`.
- `json.dfy` (`JsonValue`): values produced by `JSON.parse`, with JavaScript
  truthiness, property access, `String(v)` and `Number(v)` on integers.
- `personas.dfy` (`Personas`): the six built-in personas, the icon and colour
  palettes and the default selection (`src/constants/personas.js`).
- `api.dfy` (`Api`): the service client (`src/services/api.js`) with the HTTP
  exchange as an input. It covers the offline fallback responder (first-match
  keyword buckets and a two-level reply table), the sanitising of the
  commentary reply, the all-or-nothing fallback path, the coercion of the
  analysis report and the choice of model endpoint.
- `app.dfy` (`App`): the application state of `src/App.jsx`.
  - The effective and visible persona lists and the load-time filters are
    functions.
  - The state is the class `DiaryApp`: entries, compose text, selection, API
    key, custom personas, hidden ids and order. Its handler methods are
    proved against those functions. The persona move copies the order into
    an array and swaps two slots in place.
- `add_persona_modal.dfy` (`AddPersonaModal`): the add-persona form
  (`src/components/AddPersonaModal.jsx`).
  - Its fields are a class whose change handlers cap their lengths.
  - Its submit validates the fields and builds a `custom_` persona.
- `entry_item.dfy` (`EntryItem`): one rendered entry
  (`src/components/EntryItem.jsx`).
  - Attaching and removing the analysis report.
  - Resolving each comment to its persona.
  - The busy flag raised around the analysis request.

Behaviour of the code worth knowing:

- On success, the commentary client passes on every well-shaped reply,
  including replies for ids nobody selected (`Api.UnselectedIdSurvives`).
  Only the fallback replies are confined to the selected personas of the
  catalog (`Api.FallbackReplies`, `App.SubmitReplies`).
- The analysis client never checks the HTTP status; only the body's text
  matters (`Api.AnalysisIgnoresStatus`).
- A mood score of 0 also becomes 50, not only a non-numeric one
  (`Api.MoodScore`).
- A stored key whose text does not parse ends the whole load block. The keys
  after it are not read, and the default selection is not applied
  (`App.CorruptEntriesAbortLoad`).
- Orphaned comments render nothing and never fail. A `null` element in a
  stored comments array is different: the load filter lets it through, and
  reading its `personaId` throws (`EntryItem.NullCommentFails`).

## Model

| member | source | states |
|---|---|---|
| `Common.Take` | src/services/api.js:103-104 | `slice(0, n)` is a prefix of its input, of length `min(|s|, n)` |
| `Common.Trim` | src/components/AddPersonaModal.jsx:13 | the trimmed text is empty exactly when every character is whitespace, and otherwise starts and ends with non-whitespace |
| `Common.TrimIsSlice` | src/components/AddPersonaModal.jsx:13 | the trimmed text is a slice of the input with only whitespace before and after it |
| `Common.Contains` | src/services/api.js:41 | `t.includes(k)` holds exactly when `k` occurs in `t` at some position |
| `Common.NatToStringRoundTrip` | src/components/AddPersonaModal.jsx:19 | the decimal digits written for a timestamp read back as the same number |
| `Common.NatToStringInjective` | src/components/AddPersonaModal.jsx:19 | different timestamps are written as different strings |
| `JsonValue.Get` | src/services/api.js:95 | a property is present only on an object that has that key, and then it is that key's value |
| `JsonValue.StringToNumber` | src/services/api.js:154 | `Number(s)` is a number exactly when the trimmed text is blank, decimal digits, or a sign followed by digits: 0 when blank, and otherwise the signed digits' value |
| `JsonValue.NumberTextRoundTrip` | src/services/api.js:154 | the text an integer is written as reads back as that integer |
| `JsonValue.ToStr` | src/services/api.js:155-158 | `String(v)` of a string is the string itself, and of a number is a text that `Number` reads back as that number |
| `Common.ToLower` | src/services/api.js:33 | the lower-cased text has the same length and each character is the lower-case form of the one at the same position |
| `JsonValue.ToNumber` | src/services/api.js:154 | `Number(undefined)` is NaN, `Number(null)` is 0, and a number is itself |
| `Personas.RosterShape` | src/constants/personas.js:2-9 | there are exactly six built-ins, with pairwise distinct ids in a fixed order, each flagged `isDefault` |
| `Personas.DefaultSelectionIsBuiltin` | src/App.jsx:110 | the default selection `teacher`, `friend` names only built-in personas |
| `Personas.PaletteShape` | src/constants/personas.js:12-30 | the colour ids are pairwise distinct and the icon list contains the default icon |
| `Personas.OrDefault` | src/components/EntryItem.jsx:12 | a missing persona list falls back to the built-ins; a given one is used as is |
| `Api.Classify` | src/services/api.js:33-41 | the bucket is neutral exactly when no bucket's keyword occurs in the lower-cased text; otherwise it is a bucket with a keyword, and no bucket declared before it has one |
| `Api.NegativeWins` | src/services/api.js:34-41 | a text holding any negative keyword classifies as negative, whatever else it mentions (first match wins) |
| `Api.FailedButTriedScenario` | src/services/api.js:35-43 | "今日は失敗したけど頑張った" classifies as negative, and the teacher answers with the negative line, not the effort line |
| `Api.TableIsWellFormed` | src/services/api.js:42-49 | every row of the reply table has a neutral reply, no food or love reply, and no empty reply |
| `Api.LocalResponse` | src/services/api.js:32-51 | an unknown persona gets the placeholder; a known one gets its reply for the text's bucket if it has one, else its neutral reply |
| `Api.FoodAndLoveAnswerNeutral` | src/services/api.js:42-50 | texts classified as food or love always get the persona's neutral reply |
| `Api.FallbackCoversBuiltins` | src/services/api.js:43-50 | every built-in persona has a row in the table and never gets the placeholder |
| `Api.Clip` | src/services/api.js:102-105 | a kept reply's id is a prefix of at most 50 characters of the given id, and its comment a prefix of at most 500 characters |
| `Api.Sanitise` | src/services/api.js:100-105 | the output holds exactly the clipped well-shaped elements and is no longer than the input; when all elements are well shaped, nothing is dropped |
| `Api.SanitiseAppend` | src/services/api.js:100-105 | sanitising keeps the input order: it distributes over concatenation |
| `Api.SelectedPersonas` | src/services/api.js:108 | the selection filter holds exactly the catalog personas whose ids are selected, and is no longer than the catalog |
| `Api.SelectedPersonasAppend` | src/services/api.js:108 | the selection filter keeps catalog order: it distributes over concatenation |
| `Api.SelectedDistinct` | src/services/api.js:108 | over a catalog with distinct ids, the selected personas have distinct ids |
| `Api.FallbackReplies` | src/services/api.js:107-113 | the fallback replies name only selected personas of the catalog, each with its local response, and every selected catalog persona gets one |
| `Api.FallbackRepliesAppend` | src/services/api.js:107-113 | the fallback replies come in catalog order: they distribute over concatenation of catalogs |
| `Api.FallbackRepliesDistinct` | src/services/api.js:109-112 | over a catalog with distinct ids, no two fallback replies share an id |
| `Api.DistinctRepliesCount` | src/services/api.js:109-112 | a reply list with distinct ids has as many ids as elements |
| `Api.FallbackWithinSelection` | src/services/api.js:107-113 | the fallback gives at most one reply per distinct selected id |
| `Api.ResponsesOf` | src/services/api.js:87-98 | a reply is usable exactly when the status is ok, the generated text is present, non-empty and parses, and its `responses` property is an array; the items returned are that array's |
| `Api.GetComments` | src/services/api.js:54-114 | a usable reply is sanitised; anything else yields the fallback replies over the catalog, or over the built-ins when no catalog is given |
| `Api.FailuresFallBack` | src/services/api.js:87-113 | a transport failure, a non-ok status, missing text, unparseable text or a missing `responses` array all take the same fallback path |
| `Api.SuccessIgnoresRequest` | src/services/api.js:99-105 | the success path does not depend on the selection, the catalog or the diary text |
| `Api.UnselectedIdSurvives` | src/services/api.js:101 | a reply for an id nobody selected is kept on the success path |
| `Api.MoodScore` | src/services/api.js:154 | the score is within [0, 100]; NaN and 0 become 50; values above 100 become 100 and below 0 become 0 |
| `Api.TextField` | src/services/api.js:155-158 | a text field is at most its cap; a falsy value takes the default; a non-empty string is cut to the cap |
| `Api.CoerceAnalysis` | src/services/api.js:150-159 | a `null` parse result fails; any other value gives a report within bounds, field by field with '不明' and '' defaults and caps 50, 300, 200 and 300 |
| `Api.FetchAnalysis` | src/services/api.js:137-163 | a transport failure, a missing text or a text that does not parse gives no report; a parsed text gives the coerced report of the parsed value; any report given is within bounds |
| `Api.AnalysisIgnoresStatus` | src/services/api.js:148-150 | the analysis result does not depend on the HTTP status |
| `Api.NonObjectGivesDefaults` | src/services/api.js:153-159 | a parsed value that is neither an object nor `null` yields the all-default report |
| `Api.MoodScoreNumberSamples` | src/services/api.js:154 | -5 becomes 0, 0 becomes 50, 150 becomes 100, and a missing score is 50 |
| `Api.MoodScoreOfText` | src/services/api.js:154 | the string "abc" scores 50 |
| `Api.MoodScoreOfNumericText` | src/services/api.js:154 | the string " 42 " scores 42 |
| `Api.AnalysisToJson` | src/components/EntryItem.jsx:22 | the stored report is an object with exactly the five report properties under the service's names, each holding the report's value |
| `Api.SelectedModel` | src/services/api.js:27-59 | a requested model wins; without one a saved choice is used; with neither, the default `flash` |
| `Api.ModelEndpoint` | src/services/api.js:60 | `pro` resolves to the pro endpoint and every other id, unknown ones included, to the flash endpoint |
| `App.AllPersonasRaw` | src/App.jsx:46 | the registry is the six built-ins followed by the custom personas |
| `App.FindById` | src/App.jsx:49 | a persona is found exactly when its id is in the list, and it is the first such persona: no persona before it has that id |
| `App.Resolved` | src/App.jsx:47-50 | the resolved part is no longer than the order and holds only registry personas whose ids the order names |
| `App.Unordered` | src/App.jsx:51 | the appended part holds exactly the registry personas whose ids the order does not name |
| `App.ResolveOrder` | src/App.jsx:46-52 | with an empty order the registry is returned unchanged; otherwise only registry personas appear, and every registry id appears |
| `App.ResolveOrderIds` | src/App.jsx:46-52 | an id names a persona of the effective list exactly when it names one of the registry |
| `App.ResolvedIds` | src/App.jsx:47-50 | the resolved part lists exactly the ordered ids that name a persona, in the order's order |
| `App.EffectiveOrderIds` | src/App.jsx:46-52 | with a non-empty order, the effective ids are the resolvable ordered ids followed by the ids the order leaves out, in registry order |
| `App.ResolveOrderIsPermutation` | src/App.jsx:46-52 | with distinct registry ids and an order without repeats, the effective list is a permutation of the registry |
| `App.ReorderScenario` | src/App.jsx:46-52 | reordering to `["b", "a"]` a registry holding a, b, c gives b, a, c |
| `App.Visible` | src/App.jsx:55 | the visible list holds exactly the effective personas whose ids are not hidden |
| `App.VisibleAppend` | src/App.jsx:55 | hiding keeps relative order: it distributes over concatenation |
| `App.DropId` | src/App.jsx:189-190 | removal keeps exactly the other ids and changes nothing when the id is absent |
| `App.DropPersona` | src/App.jsx:188 | removal keeps exactly the personas with another id |
| `App.Toggled` | src/App.jsx:194-197 | toggling flips the id's membership and leaves every other id's membership alone |
| `App.ToggleTwice` | src/App.jsx:258-261 | toggling twice restores the set of ids, and the list itself when the id was absent |
| `App.IndexOf` | src/App.jsx:209 | `indexOf` is -1 exactly when the id is absent, and otherwise the id's first position |
| `App.CurrentOrder` | src/App.jsx:206-208 | a move works on the explicit order, or on the registry's ids when that order is empty |
| `App.Moved` | src/App.jsx:209-216 | no change when the id is absent or the neighbour is out of range; otherwise the id and its neighbour swap and every other position is unchanged |
| `App.MovedIsPermutation` | src/App.jsx:209-216 | a move only swaps two positions, so the new order holds the same ids as many times as before |
| `App.UpThenDown` | src/App.jsx:205-218 | moving up and then down restores the order |
| `App.DownThenUp` | src/App.jsx:205-218 | moving down and then up restores the order when the neighbour is a different id |
| `App.ReplaceById` | src/App.jsx:264-266 | update keeps length and order and replaces exactly the entries with that id |
| `App.ReplaceAbsentId` | src/App.jsx:264-266 | updating an id no entry carries changes nothing |
| `App.RemoveById` | src/App.jsx:305-309 | delete keeps exactly the entries with another id |
| `App.RemoveByIdAppend` | src/App.jsx:307 | delete keeps the other entries in their order |
| `App.NewComments` | src/App.jsx:284-287 | each reply `{id, comment}` becomes the comment `{personaId, text}` at the same position |
| `App.NewEntry` | src/App.jsx:289-297 | the new entry has the clock's id, the date text, the content and the comments, no analysis, and passes the load filter |
| `App.FilterEntries` | src/App.jsx:68-74 | the kept records are exactly the input records passing the shape check |
| `App.FilterEntriesAppend` | src/App.jsx:68-74 | the entry filter keeps the records' order |
| `App.DecodePersona` | src/App.jsx:90-96 | a checked custom persona record keeps its id, name, role and description |
| `App.FilterPersonas` | src/App.jsx:90-96 | every record passing the persona check is kept, and only those |
| `App.FilterPersonasAppend` | src/App.jsx:90-96 | the persona filter keeps the records' order |
| `App.StringItems` | src/App.jsx:102-128 | a stored id list keeps exactly its string elements |
| `App.StringItemsAppend` | src/App.jsx:102-128 | reading an id list keeps the strings' order |
| `App.ReadKey` | src/App.jsx:64-66 | a key counts as absent exactly when nothing or an empty string is stored; a stored text is corrupt exactly when it does not parse, and otherwise the key holds the parsed value |
| `App.LoadIdLists` | src/App.jsx:101-133 | the selection, hidden-id and order keys change only their own fields; a stored array under each is read as its string items, as long as no earlier id-list key failed to parse; an absent selection becomes `teacher`, `friend`; a selection that does not parse leaves everything as it was |
| `App.LoadState` | src/App.jsx:61-135 | stored entries that do not parse leave the state as it was; otherwise every field is either kept or read from its own key. A non-empty stored key is taken, a stored customs array is read through the persona filter, and, while no earlier key failed to parse, a stored selection, hidden-id or order array is read as its string items; an absent selection becomes the default one |
| `App.LoadKeepsValidEntries` | src/App.jsx:64-76 | loading keeps exactly the stored entries that pass the shape check, in order |
| `App.LoadNothingSaved` | src/App.jsx:101-111 | with nothing stored, the loaded state is the initial one with the selection `teacher`, `friend` |
| `App.LoadDefaultSelection` | src/App.jsx:108-111 | with no saved selection, the selection becomes `teacher`, `friend` |
| `App.CorruptEntriesAbortLoad` | src/App.jsx:62-133 | stored entries that do not parse abort the load and leave the state as it was |
| `App.LoadKeepsShape` | src/App.jsx:68-75 | after loading, every entry passes the shape check |
| `App.SubmitGate` | src/App.jsx:269-278 | submit is ignored on blank text, stopped on an empty selection, and stopped on a missing key, checked in that order; otherwise it saves |
| `App.SubmitReplies` | src/App.jsx:282 | a usable reply is sanitised; otherwise every reply names a selected registry persona with its local response, and every selected registry persona gets one, whatever the order |
| `App.FallbackOverOrder` | src/App.jsx:282 | reordering the registry changes neither which personas the fallback answers for nor what they say |
| `App.DiaryApp.constructor` | src/App.jsx:23-43 | the state starts empty: no entries, no text, no selection, no key, no customs, no hidden ids, no order, settings closed |
| `App.DiaryApp.AllPersonas` | src/App.jsx:46-52 | the effective list is the registry when no order is set; it holds only registry personas and every registry id |
| `App.DiaryApp.VisiblePersonas` | src/App.jsx:55 | the visible list holds exactly the effective personas whose ids are not hidden |
| `App.DiaryApp.Load` | src/App.jsx:61-135 | the load effect sets the state to the key-by-key load of the stored keys |
| `App.DiaryApp.SaveKey` | src/App.jsx:177-181 | the key is kept and the settings dialog closed |
| `App.DiaryApp.SetInputText` | src/App.jsx:392 | the compose text is kept within 2000 characters |
| `App.DiaryApp.AddCustomPersona` | src/App.jsx:183-185 | the new persona is appended to the customs |
| `App.DiaryApp.DeleteCustomPersona` | src/App.jsx:187-191 | the id leaves the customs, the selection and the order; nothing else changes; a custom id no longer appears in the effective list |
| `App.DiaryApp.TogglePersonaVisibility` | src/App.jsx:193-203 | the id's hidden membership flips; a newly hidden id leaves the selection and the visible list, and an unhidden one leaves the selection alone |
| `App.DiaryApp.TogglePersona` | src/App.jsx:258-262 | the id joins or leaves the selection |
| `App.DiaryApp.MovePersona` | src/App.jsx:205-218 | the in-place swap on a copy of the current order gives the moved order, or leaves the order unchanged on a no-op |
| `App.DiaryApp.ReorderPersonas` | src/App.jsx:221-223 | the order is replaced wholesale |
| `App.DiaryApp.UpdateEntry` | src/App.jsx:264-266 | entries are replaced by id |
| `App.DiaryApp.Delete` | src/App.jsx:305-309 | with confirmation the entries with that id are removed, without it nothing changes |
| `App.DiaryApp.Record` | src/App.jsx:284-300 | with the replies back, exactly one entry carrying the text and those replies as comments is prepended, the prior entries are kept in order, every entry keeps the stored shape and the compose text is cleared |
| `App.DiaryApp.Submit` | src/App.jsx:268-303 | the outcome follows the precondition ladder and only a save changes the entries. A save prepends exactly one entry built from the text and the replies, keeps the prior entries, and clears the compose text. A missing key opens the settings |
| `App.DiaryApp.ClearAllData` | src/App.jsx:225-239 | every collection is reset to its default: no entries, no key, no customs, selection `teacher`, `friend`, no hidden ids, no order |
| `AddPersonaModal.CustomId` | src/components/AddPersonaModal.jsx:19 | a minted id is `custom_` followed by the timestamp's digits |
| `AddPersonaModal.CustomIdInjective` | src/components/AddPersonaModal.jsx:19 | personas created at different times get different ids |
| `AddPersonaModal.CustomIdNotBuiltin` | src/components/AddPersonaModal.jsx:19 | a minted id never names a built-in persona |
| `AddPersonaModal.BuildPersona` | src/components/AddPersonaModal.jsx:12-29 | nothing is built exactly when the trimmed name, role or description is empty. Otherwise the persona has the minted id, `isDefault` false, and the trimmed fields cut to 20, 10 and 200 characters (each non-empty and within its cap) |
| `AddPersonaModal.BlankNameRejected` | src/components/AddPersonaModal.jsx:13-16 | a blank name is rejected |
| `AddPersonaModal.AddKeepsIdsDistinct` | src/App.jsx:183-185 | adding a persona minted later than every existing custom persona keeps the registry's ids distinct |
| `AddPersonaModal.PersonaForm.constructor` | src/components/AddPersonaModal.jsx:6-10 | the form starts empty, with the icon '😀' and the first palette colour |
| `AddPersonaModal.PersonaForm.SetName` | src/components/AddPersonaModal.jsx:96 | the name keeps the first 20 characters typed |
| `AddPersonaModal.PersonaForm.SetRole` | src/components/AddPersonaModal.jsx:108 | the role keeps the first 10 characters typed |
| `AddPersonaModal.PersonaForm.SetDesc` | src/components/AddPersonaModal.jsx:122 | the description keeps the first 200 characters typed |
| `AddPersonaModal.PersonaForm.SetIcon` | src/components/AddPersonaModal.jsx:56 | the chosen icon becomes the form's icon |
| `AddPersonaModal.PersonaForm.SetColor` | src/components/AddPersonaModal.jsx:76 | the chosen colour becomes the form's colour |
| `AddPersonaModal.PersonaForm.Submit` | src/components/AddPersonaModal.jsx:12-29 | the persona handed to `onAdd`, or nothing when a required field is blank |
| `EntryItem.WithAnalysis` | src/components/EntryItem.jsx:22 | the entry gains the report and keeps every other property |
| `EntryItem.WithoutAnalysis` | src/components/EntryItem.jsx:29-32 | the entry loses the report and keeps every other property |
| `EntryItem.ClearIdempotent` | src/components/EntryItem.jsx:29-32 | removing the report twice is removing it once |
| `EntryItem.ClearUndoesAttach` | src/components/EntryItem.jsx:22-32 | removing a report just attached gives the entry as it was without one |
| `EntryItem.EditsKeepShape` | src/components/EntryItem.jsx:22-31 | attaching or removing the report keeps the entry's id and its stored shape |
| `EntryItem.ResolveComment` | src/components/EntryItem.jsx:87 | a comment resolves exactly when its `personaId` is a string naming a listed persona |
| `EntryItem.RenderFrom` | src/components/EntryItem.jsx:86-89 | rendering fails exactly when an element is `null`; otherwise every card points at a comment from the starting position on |
| `EntryItem.RenderSound` | src/components/EntryItem.jsx:86-89 | each card belongs to a comment whose persona resolves to the card's persona, and carries that comment's text |
| `EntryItem.RenderComplete` | src/components/EntryItem.jsx:86-89 | every comment whose persona resolves gets a card |
| `EntryItem.RenderOrdered` | src/components/EntryItem.jsx:86-89 | the cards keep the comments' order |
| `EntryItem.OrphansRenderNothing` | src/components/EntryItem.jsx:86-89 | without `null` elements rendering succeeds, and an orphaned comment gets no card |
| `EntryItem.AbsentIdRendersNothing` | src/components/EntryItem.jsx:86-89 | a comment whose `personaId` names no listed persona gets no card |
| `EntryItem.DeletedIdNotShown` | src/App.jsx:187-191 | once a custom persona is deleted, no persona in the effective list carries its id |
| `EntryItem.DeletedPersonaOrphansComment` | src/components/EntryItem.jsx:86-89 | after its custom persona is deleted, a comment renders nothing |
| `EntryItem.NullCommentFails` | src/components/EntryItem.jsx:86-87 | a `null` comment makes rendering fail |
| `EntryItem.EntryCard.constructor` | src/components/EntryItem.jsx:8-12 | without a persona list the built-ins are used, and the card is not busy |
| `EntryItem.EntryCard.HandleAnalysis` | src/components/EntryItem.jsx:14-27 | without an API key no update is issued. Otherwise the busy flag ends lowered, and a report, when one comes back, updates the same id with the entry plus that report |
| `EntryItem.EntryCard.ClearAnalysis` | src/components/EntryItem.jsx:29-32 | the update carries the same id and the entry without its report, still in the stored shape |
| `EntryItem.EntryCard.Cards` | src/components/EntryItem.jsx:86-89 | an entry whose comments hold no `null` always renders |

## Left out

- The HTTP exchange with the generative service (`fetch`, `response.json()`) is an input: either "failed" or a status with an optional generated text. `JSON.parse` is a parameter returning a parsed value or nothing.
- The prompt template strings sent to the service are free text for an external model and are not modelled.
- The firestore, authentication and firebase service wrappers, and the realtime sync layer, are not part of this model: they are networked, subscription-driven foreign calls. Their initial document uses the same default selection as `App.Cleared`.
- localStorage writes, the `isLoaded` save effects, the export download, `Date.now`, `toLocaleString`, `alert` and `window.confirm` are I/O. Timestamps, date texts and confirmations are parameters.
- View switching and the settings, selector, comment card, avatar and analysis section components are rendering only. The writing busy flag in the app disables the submit button while a request is pending (src/App.jsx:409); with submit modelled as one step (see the `App.DiaryApp.Submit` line below) there is no pending request for it to guard.
- `Common.ToLower`: folds only ASCII letters. The keywords hold no letters that case-fold, so classification does not depend on other letters.
- `Common.Take`, `Common.Trim`: strings are sequences of code points, not UTF-16 code units, so a cut never splits a surrogate pair.
- `JsonValue.ToNumber`, `JsonValue.StringToNumber`: numbers are integers, so texts such as `1.5`, `0x10`, `1e3` and `Infinity`, which `Number` reads as numbers, are NaN (`None`) here. Fractions, exponents, `Infinity`, hex literals and IEEE NaN propagation are not modelled.
- `App.StringItems`: id lists are sequences of strings, so non-string elements of a stored selection, hidden-id or order list are dropped on load, while the app keeps them and counts them in `.length` (src/App.jsx:47, 206 and 270). A stored selection such as `[1]` therefore loads as empty and the modelled submit stops at "no persona selected", where the app goes on to the request. A stored order holding only non-strings, such as `[5]`, loads as empty. The effective list is the registry in both, but a modelled move swaps over the registry's ids, where the app finds the persona missing from the stored order and changes nothing.
- `App.DiaryApp.Submit`, `EntryItem.EntryCard.HandleAnalysis`: each is one atomic step. In the app, the state written after the `await` (src/App.jsx:299 and src/components/EntryItem.jsx:22) comes from closures captured before it, so a delete, an update, a clear-all or typing that happens while the request is pending is overwritten. The model does not capture that lost update.
- `App.ReplaceById`, `App.RemoveById`: entry ids are compared as values. JavaScript's `===` compares object ids by reference, so two stored entries whose ids are equal objects are distinct to the app and equal to the model. Ids written by the app are numbers, where the two agree.
- `App.DecodePersona`: a stored custom persona's non-string `icon` or `color` is read as the empty string, and any `isDefault` other than `true` as false.
- Removing the entries key after any key fails to parse (the catch at src/App.jsx:130-133 removes it whichever key threw) is a storage write and is not modelled. The state effect of the failed load is modelled.
