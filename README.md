# Dessine moi mon jardin — a Dafny model of the matching and import core

"Dessine moi mon jardin" is a browser application for landscaping quotes. A quote is a project's list of tasks: a location, a product name, a reference and a description. Each task is matched against a catalog of products.

The application's core consists of:

- a **reconciliation engine**: each task gets the first catalog product whose reference matches the task's, ignoring case and surrounding white space, or whose name contains the task's name;
- a **spreadsheet importer**: it turns the cell grid of an uploaded sheet into tasks, using header synonyms;
- **task-list edits**: add, remove, update a field, pick a product, append imported tasks, append a generated image;
- a **persistence gateway**: two keyed lists in the browser's key-value store. Products are keyed by reference and projects by id, with replace-or-append saves and filter deletes;
- the **model-service client**: the API-key check, the classification of errors, the request for a garden visualization and the scan of its response;
- the screens around that core: the catalog search, project creation and deletion, the product form, and the application shell's navigation.

This model follows the code of the application.

Pure logic is written as datatypes, functions and lemmas:

- `Reconciliation`, `SheetImport` and `ProjectEdits`;
- the request and response logic of `Gemini`;
- `Text`, `Seqs` and `KeyedList`, which give the JavaScript string and array operations the code relies on.

Stateful parts are classes whose methods change their fields:

- the browser store (`LocalStore.BrowserStore`), over which the gateway methods work;
- the matcher screen (`MatcherSession.ProjectMatcher`), whose handlers replace the project and save it;
- the catalog screen, the project list, the product form and the application shell.

Each method's `ensures` ties the new state to the pure functions. The properties are proved about those functions.

The application's sources of nondeterminism are parameters of the model:

| source | parameter |
|---|---|
| random ids | a function `ids: nat -> string` or an `id` argument |
| dates | a `createdAt` string |
| the user's confirmation | a `confirmed` flag |
| the configured API key | an `apiKey` string; empty means missing |
| the outcome of each model-service call | an `Outcome` value: a response or a thrown message |

## Model

| member | source | states |
|---|---|---|
| Reconciliation.GetMatch | components/ProjectMatcher.tsx:204-210 | no match when both the reference and the name of the task are empty; no match iff no catalog product satisfies either clause; otherwise the result is the catalog element at the first position that satisfies a clause |
| Reconciliation.ReferenceMatches | components/ProjectMatcher.tsx:207 | clause (a) holds iff the task reference is non-empty and equals the product's once both are lower-cased and trimmed; trimming first and lower-casing second gives the same answer |
| Reconciliation.NameMatches | components/ProjectMatcher.tsx:208 | clause (b) needs a non-empty task name no longer than the product name, since the name must occur inside it |
| Reconciliation.Matches | components/ProjectMatcher.tsx:206-209 | a product is a candidate when either clause holds; a task with neither a reference nor a name has no candidate, so the early return at line 205 agrees with the search |
| Reconciliation.FirstMatchIndex | components/ProjectMatcher.tsx:206-209 | the position found by `find`: every earlier product fails both clauses, and the product found satisfies one |
| Reconciliation.ReferenceEqualityFindsMatch | components/ProjectMatcher.tsx:207 | a non-empty task reference equal to a product's reference, once both are lower-cased and trimmed, always yields a match |
| Reconciliation.MatchStableUnderAppend | components/ProjectMatcher.tsx:206 | matching is first-in-catalog-order: products added at the end of the catalog never change an existing match |
| Reconciliation.NoStaleMatchAfterDelete | components/ProjectMatcher.tsx:204-210 | after a product is deleted, a task's match is a remaining catalog product whose reference differs from the deleted one |
| Reconciliation.DeletingOnlyCandidateUnmatches | components/ProjectMatcher.tsx:204-210 | a task whose only candidates had the deleted reference has no match afterwards |
| Reconciliation.SelectedProductIsMatched | components/ProjectMatcher.tsx:150-156 | after a catalog product's name and reference are copied into a task, the task has a match, unless the product's name and reference are both empty |
| Reconciliation.MatchedTasksCount | components/ProjectMatcher.tsx:212 | the validated count is at most the number of tasks, and it is zero iff no task has a match |
| Reconciliation.PairWithMatch | components/ProjectMatcher.tsx:169-170 | one pair per task, in task order, each task with `getMatch` of it |
| Reconciliation.ValidMatches | components/ProjectMatcher.tsx:169-171 | every entry of `validMatches` carries a product, and that product is `getMatch` of its task |
| Reconciliation.ValidMatchesAreMatchedTasks | components/ProjectMatcher.tsx:169-171 | the tasks of `validMatches` are exactly the matched tasks, in task order |
| Reconciliation.ValidMatchesCount | components/ProjectMatcher.tsx:169-176 | `validMatches` has as many entries as the validated count, so the button's gate and the handler's gate agree |
| Reconciliation.BlankTaskNeverCounts | components/ProjectMatcher.tsx:137-140 | appending an all-empty task leaves the validated count unchanged |
| Reconciliation.DropdownOptions | components/ProjectMatcher.tsx:342 | the drop-down lists a subset of the catalog, each entry offered for the typed name |
| Reconciliation.DropdownListsAllForEmptyName | components/ProjectMatcher.tsx:342 | with an empty task name the drop-down lists the whole catalog |
| Reconciliation.NameMatchIsOffered | components/ProjectMatcher.tsx:342 | every product matched by the name clause of `getMatch` (line 208) appears in that task's drop-down |
| SheetImport.CellText | components/ProjectMatcher.tsx:103-106 | `String(cell \|\| "")` is non-empty iff the cell is truthy |
| SheetImport.DecimalDigits | components/ProjectMatcher.tsx:103-106 | a number cell's text is a non-empty string of decimal digits whose value (`DigitsValue`, read most significant first) is the number, with no leading zero unless it is "0": JavaScript's rendering of integers below 10^21 |
| SheetImport.FindIdx | components/ProjectMatcher.tsx:90-92 | the first header that is one of the synonyms, or -1; no earlier header is a synonym, and none is when the result is -1 |
| SheetImport.HeaderKeys | components/ProjectMatcher.tsx:88 | one normalised key, trimmed and then lower-cased, per header cell |
| SheetImport.ResolveColumns | components/ProjectMatcher.tsx:94-98 | each of the five fields takes the first column whose normalised header is one of that field's own synonyms, or -1 when no header is |
| SheetImport.FieldText | components/ProjectMatcher.tsx:103-106 | an unresolved field gives ""; a resolved field gives the trimmed text of its cell ("" for a missing or falsy cell), with no white space left at either end |
| SheetImport.FieldTextEmpty | components/ProjectMatcher.tsx:103-106 | in a resolved column the field is empty iff the cell is missing or falsy, or its text is all white space |
| SheetImport.WithTexture | components/ProjectMatcher.tsx:108-110 | the description is only ever extended, never rewritten, and it changes iff there is a texture column and the row's texture cell is truthy |
| SheetImport.RowToTask | components/ProjectMatcher.tsx:100-118 | the row's task carries its generated id; reference, name and location are `FieldText` of their resolved columns, and the description is that of its column after `WithTexture`; the three are trimmed |
| SheetImport.TextureFoldedIntoDescription | components/ProjectMatcher.tsx:107-110 | with a truthy texture cell the description becomes "Texture: v", or "desc \| Texture: v" after a non-empty description, with v untrimmed |
| SheetImport.TextureOnlyRowKept | components/ProjectMatcher.tsx:107-120 | a row with only a texture value is kept, with description "Texture: v" |
| SheetImport.RowTasks | components/ProjectMatcher.tsx:100-119 | one task per data row |
| SheetImport.ImportedTasks | components/ProjectMatcher.tsx:120 | at most one task per data row, and every kept task has a non-empty field |
| SheetImport.ImportKeepsExactlyRowsWithContent | components/ProjectMatcher.tsx:120 | a row's task is imported iff one of its four fields is non-empty |
| SheetImport.ImportPreservesRowOrder | components/ProjectMatcher.tsx:100-120 | the imported tasks are an order-preserving subsequence of the row tasks |
| SheetImport.ImportCount | components/ProjectMatcher.tsx:100-120 | of N data rows of which M give blank tasks, exactly N - M tasks are imported |
| SheetImport.ParseSheet | components/ProjectMatcher.tsx:82-127 | "empty file" iff the sheet has no rows; for a non-empty sheet, the no-rows error iff every data row gives a blank task; an `Ok` holds exactly the imported tasks of the data rows under the header's columns: at least one, at most one per data row, each with content |
| SheetImport.NothingImportedIffAllBlank | components/ProjectMatcher.tsx:120-124 | nothing is imported iff the task of every data row is blank |
| SheetImport.HeaderRowNeverImported | components/ProjectMatcher.tsx:100 | every imported task is built from a row after the header row, with that row's id |
| ProjectEdits.WithTaskAdded | components/ProjectMatcher.tsx:137-140 | one task with the new id and empty fields is appended; existing tasks and other project fields are unchanged |
| ProjectEdits.WithoutTask | components/ProjectMatcher.tsx:142-144 | a task survives iff its id differs; other project fields are unchanged |
| ProjectEdits.RemoveTaskKeepsOrder | components/ProjectMatcher.tsx:143 | the surviving tasks keep their order |
| ProjectEdits.WithTaskField | components/ProjectMatcher.tsx:146-148 | the named field of every task with the id takes the value; every other field of every task is unchanged, as are length, order and other project fields |
| ProjectEdits.UpdateTaskLastWriteWins | components/ProjectMatcher.tsx:146-148 | updating a non-id field twice equals updating it once with the last value |
| ProjectEdits.WithProductSelected | components/ProjectMatcher.tsx:150-156 | only the name and the reference of tasks with the id are overwritten, from the product |
| ProjectEdits.SelectionIsTwoFieldEdits | components/ProjectMatcher.tsx:150-156 | selecting a product equals a name edit followed by a reference edit |
| ProjectEdits.SelectedTaskIsMatched | components/ProjectMatcher.tsx:150-156 | after picking a catalog product, the task is matched |
| ProjectEdits.AddedTaskIsUnmatched | components/ProjectMatcher.tsx:137-140 | the added task has no match, and the validated count is unchanged |
| ProjectEdits.WithTasksAppended | components/ProjectMatcher.tsx:122-124 | imports only append: the old tasks are an unchanged prefix and the new tasks follow, in order |
| ProjectEdits.ImportAddsToMatchedCount | components/ProjectMatcher.tsx:122-124 | after an import the validated count is the old count plus that of the new tasks |
| ProjectEdits.TasksFromExtraction | components/ProjectMatcher.tsx:45-53 | one task per extracted entry, with its generated id; present fields are copied and missing ones become "" |
| ProjectEdits.WithImageAppended | components/ProjectMatcher.tsx:186-188 | exactly one image is appended at the end of the history; nothing else changes |
| MatcherSession.ProjectMatcher.constructor | components/ProjectMatcher.tsx:27-31 | the screen starts on the stored project and the given catalog, with no text and no image |
| MatcherSession.ProjectMatcher.SaveState | components/ProjectMatcher.tsx:33-36 | the screen shows the new project and the store holds it upserted by id |
| MatcherSession.ProjectMatcher.AddTask | components/ProjectMatcher.tsx:137-140 | the project becomes `WithTaskAdded` of the old one and is saved |
| MatcherSession.ProjectMatcher.RemoveTask | components/ProjectMatcher.tsx:142-144 | the project becomes `WithoutTask` of the old one and is saved |
| MatcherSession.ProjectMatcher.UpdateTask | components/ProjectMatcher.tsx:146-148 | the project becomes `WithTaskField` of the old one and is saved |
| MatcherSession.ProjectMatcher.SelectProductForTask | components/ProjectMatcher.tsx:150-156 | the project becomes `WithProductSelected` of the old one and is saved |
| MatcherSession.ProjectMatcher.UploadSitePhoto | components/ProjectMatcher.tsx:158-165 | only the site photo changes, and the project is saved |
| MatcherSession.ProjectMatcher.ClearSitePhoto | components/ProjectMatcher.tsx:257 | the site photo is cleared and the project saved |
| MatcherSession.ProjectMatcher.ImportQuote | components/ProjectMatcher.tsx:40-67 | blank text does nothing; a non-empty extraction is appended and saved and the text cleared; an empty one or an error leaves project and store untouched; the key error is reported |
| MatcherSession.ProjectMatcher.ImportSheet | components/ProjectMatcher.tsx:69-135 | on success the sheet's tasks are appended and saved and their number reported; on either error nothing changes |
| MatcherSession.RequestVisualization | components/ProjectMatcher.tsx:168-185 | nothing is requested, returned or reported without a site photo or with no validated match; otherwise the request carries the validated matches' products and tasks in task order, the image is the first inline image of the response, and an error is reported iff the key is missing or the thrown message names it (then no image) |
| MatcherSession.ProjectMatcher.GenerateVisualization | components/ProjectMatcher.tsx:167-202 | the attempt is `RequestVisualization` on the project on screen; an image is shown and appended to `generatedImages`, once, and the project saved; no image leaves the project, the store and the shown image unchanged |
| MatcherSession.OpenMatcher | components/ProjectMatcher.tsx:27-31 | the screen opens iff a stored project has the id, on that project and on the catalog as `getProducts` returns it; the store changes only by the initial catalog seeding |
| StorageService.InitialProductsUnique | constants.tsx:27-40 | the seed catalog has distinct references |
| StorageService.GetProducts | services/storageService.ts:10-17 | returns the stored catalog; on an absent key it stores and returns the seed |
| StorageService.SaveProduct | services/storageService.ts:19-25 | the catalog becomes the replace-or-append upsert by reference; the saved product is then found by its reference; unique references stay unique |
| StorageService.DeleteProduct | services/storageService.ts:27-31 | the catalog keeps, in order, exactly the products with another reference; uniqueness is kept |
| StorageService.GetProjects | services/storageService.ts:34-37 | the stored projects, or none when the key is absent |
| StorageService.GetProject | services/storageService.ts:39-41 | the first stored project with the id, or none |
| StorageService.SaveProject | services/storageService.ts:43-49 | the projects become the upsert by id; `getProject(p.id)` then gives `p`; unique ids stay unique |
| StorageService.SaveProjectIdempotent | services/storageService.ts:43-49 | saving a project twice leaves the store as saving it once |
| StorageService.DeleteProject | services/storageService.ts:51-55 | the projects keep exactly those with another id; none with the id is then found |
| StorageService.KeysAreSeparate | services/storageService.ts:5-6 | writing the projects key leaves the catalog unchanged, and the other way round |
| KeyedList.IndexOfKey | services/storageService.ts:21 | `findIndex`, here and in `saveProject` (line 45): -1 or the first position holding the key |
| KeyedList.FindByKey | services/storageService.ts:40 | `find`: none iff no element has the key, else the first one that has it |
| KeyedList.Upsert | services/storageService.ts:21-23 | replaces the first element with the key, keeping the length, or appends at the end; all other positions unchanged; `saveProject` (lines 45-47) uses the same rule |
| KeyedList.UpsertThenFind | services/storageService.ts:19-25 | after an upsert the key finds the saved element |
| KeyedList.UpsertIdempotent | services/storageService.ts:43-49 | upserting twice equals upserting once |
| KeyedList.UpsertKeepsUnique | services/storageService.ts:19-25 | upsert keeps keys unique |
| KeyedList.RemoveKey | services/storageService.ts:29 | no remaining element has the removed key (also line 53, for projects) |
| KeyedList.RemoveKeyMembership | services/storageService.ts:29 | an element remains iff it was present and has another key |
| KeyedList.RemoveKeyIsSubsequence | services/storageService.ts:29 | removal keeps the order of what remains |
| KeyedList.RemoveKeyCount | services/storageService.ts:29 | the list shrinks by exactly the number of elements with the removed key, so each of the others stays, once |
| KeyedList.RemoveAbsentKey | services/storageService.ts:27-31 | deleting a key that no element has is a no-op |
| KeyedList.RemoveKeepsUnique | services/storageService.ts:27-31 | removal keeps keys unique, for products and for projects (lines 51-55) |
| LocalStore.BrowserStore.GetItem | services/storageService.ts:11 | `getItem`: a value iff the key is present, and it is the stored value |
| LocalStore.BrowserStore.SetItem | services/storageService.ts:13 | `setItem` writes the one key |
| LocalStore.BrowserStore.RemoveItem | App.tsx:28 | `removeItem` removes the one key |
| Gemini.ParseQuoteToTasks | services/geminiService.ts:6-60 | `KEY_NOT_FOUND` iff the key is missing or the error names the key; otherwise the parsed `tasks`, or `[]` when they are absent or on any other error |
| Gemini.IsKeyError | services/geminiService.ts:55 | a key error iff there is a message and "entity was not found" or "API key" starts at some position of it |
| Gemini.KeyErrorAnywhere | services/geminiService.ts:55 | any message with either phrase anywhere in it, whatever comes before or after, is a key error |
| Gemini.KeyErrorSurvivesPrefix | services/geminiService.ts:55 | a key error stays one when text is put in front of its message, since `includes` looks anywhere in it |
| Gemini.KeyErrorMessages | services/geminiService.ts:54-56 | the service's "Requested entity was not found." and "API key not valid" messages are key errors; a missing message is not |
| Gemini.Base64Payload | services/geminiService.ts:70 | a string without a comma is sent whole |
| Gemini.PayloadOfDataUrl | services/geminiService.ts:70 | for "header,payload" with a non-empty payload, the payload is sent, for the photo and for each texture (line 84) |
| Gemini.EmptyPayloadSendsWhole | services/geminiService.ts:70 | "header," is sent whole |
| Gemini.SummaryLines | services/geminiService.ts:69 | one summary line per task |
| Gemini.TaskSummary | services/geminiService.ts:69 | the summary of no tasks is empty, and every task's line occurs in the summary |
| Gemini.SummaryHasOneLinePerTask | services/geminiService.ts:69 | splitting the summary at line breaks gives back each task's line, in order, for every task and with no cap of three |
| Gemini.SummaryLineIsSingleLine | services/geminiService.ts:69 | a task without line breaks gives a single summary line |
| Gemini.TextureParts | services/geminiService.ts:72-87 | min(3, n) texture parts |
| Gemini.BuildRequest | services/geminiService.ts:72-104 | exactly 2 + min(3, n) parts: the photo's payload, then the payloads of the first products in order, then the instruction with the task summary |
| Gemini.OnlyFirstThreeProductsSent | services/geminiService.ts:72 | products past the third never change the request |
| Gemini.FirstImage | services/geminiService.ts:118-123 | none iff no part carries inline data; otherwise the PNG data URL of the first part that does |
| Gemini.ResponseParts | services/geminiService.ts:118 | whenever the first candidate has content with parts, exactly those parts are read; otherwise none |
| Gemini.ScanForImage | services/geminiService.ts:118-123 | the loop with early return computes `FirstImage` |
| Gemini.GenerateVisualization | services/geminiService.ts:62-131 | no request iff the key is missing; otherwise the request is `BuildRequest`; the first inline image of a response; `KEY_NOT_FOUND` iff the key is missing or the error names it; null on any other error |
| InventoryScreen.FilteredProducts | components/Inventory.tsx:36-39 | every listed product matches the search; the "ARTICLES" counter (line 74), its length, is at most the number of products |
| InventoryScreen.ListedIffMatches | components/Inventory.tsx:36-39 | a product is listed iff it is loaded and its lower-cased name or reference contains the lower-cased term |
| InventoryScreen.EmptySearchListsAll | components/Inventory.tsx:36-39 | an empty search lists every product |
| InventoryScreen.FilterKeepsOrder | components/Inventory.tsx:36 | the listed products keep catalog order |
| InventoryScreen.DropdownIsCatalogSearch | components/ProjectMatcher.tsx:342 | the matcher's drop-down is the catalog search applied to the task name |
| InventoryScreen.DeletedProductNotListed | components/Inventory.tsx:29-34 | after a confirmed delete no listed product has the deleted reference |
| InventoryScreen.Inventory.constructor | components/Inventory.tsx:9-20 | mounting loads the stored catalog, first seeding the store with the initial products when it holds no catalog, and touches no other store entry; the form is closed and the search empty |
| InventoryScreen.Inventory.LoadProducts | components/Inventory.tsx:14-16 | the list becomes the stored catalog; the store changes only by the initial seeding when it held no catalog |
| InventoryScreen.Inventory.SetSearchTerm | components/Inventory.tsx:70 | only the search term changes |
| InventoryScreen.Inventory.OpenNew | components/Inventory.tsx:49-52 | the form opens empty |
| InventoryScreen.Inventory.OpenEdit | components/Inventory.tsx:121-124 | the form opens on that product |
| InventoryScreen.Inventory.CloseForm | components/Inventory.tsx:160-163 | the form closes and forgets the product |
| InventoryScreen.Inventory.HandleSave | components/Inventory.tsx:22-27 | the store's catalog entry, and nothing else in the store, becomes the catalog with the product upserted, and the list is reloaded; the product is then found by its reference; the form closes |
| InventoryScreen.Inventory.HandleDelete | components/Inventory.tsx:29-34 | only when confirmed, the store's catalog entry, and nothing else in the store, loses exactly the products with that reference, and the list is reloaded |
| ProjectListScreen.ProjectList.constructor | components/ProjectList.tsx:12-18 | mounting loads the stored projects |
| ProjectListScreen.ProjectList.HandleCreateProject | components/ProjectList.tsx:20-38 | refused when the trimmed name is empty; otherwise a project with the untrimmed name, no photo, tasks or images is saved, appended to the list and selected |
| ProjectListScreen.NewProject | components/ProjectList.tsx:24-31 | the new project has the given id, the untrimmed name and the date, no tasks and no images, and its card shows the placeholder |
| ProjectListScreen.ProjectList.AddProject | components/ProjectList.tsx:33-34 | the project is saved, then appended to the list |
| ProjectListScreen.ProjectList.HandleDeleteProject | components/ProjectList.tsx:40-46 | only when confirmed, the projects with the id leave storage and the list |
| ProjectListScreen.Thumbnail | components/ProjectList.tsx:71-73 | the last generated image when non-empty, else the site photo, and the placeholder iff there is neither |
| ProjectListScreen.CardShowsLatestRender | components/ProjectList.tsx:71-73 | once an image is generated, the card shows it |
| Text.TrimmedIffTrimFixed | components/ProjectMatcher.tsx:103-106 | a string has no white space at either end iff `trim` leaves it unchanged, so `FieldText`'s shape clause means the text is trimmed |
| Text.TrimEmptyIffAllSpace | components/ProjectList.tsx:22 | the trim of a name is empty iff the name is all white space |
| Text.TrimLowerCommute | components/ProjectMatcher.tsx:207 | `toLowerCase().trim()`, used for references, equals `trim().toLowerCase()`, used for headers at line 88 |
| ProductFormScreen.ProductForm.constructor | components/ProductForm.tsx:13-22 | the form starts from the product being edited, or empty |
| ProductFormScreen.ProductForm.EditReference | components/ProductForm.tsx:60-64 | only the reference changes, and only while the input is enabled |
| ProductFormScreen.ProductForm.EditName | components/ProductForm.tsx:76 | only the name changes |
| ProductFormScreen.ProductForm.EditUrl | components/ProductForm.tsx:87 | only the url changes |
| ProductFormScreen.ProductForm.SetImage | components/ProductForm.tsx:24-33 | only the image changes |
| ProductFormScreen.ProductForm.Submit | components/ProductForm.tsx:35-40 | the form data is saved and the form closes iff the browser accepts the `type="url"` field (line 83) and reference and name are non-empty, untrimmed |
| ProductFormScreen.EditedProductReplaces | components/ProductForm.tsx:60 | saving an edited product, whose reference is locked, replaces its entry instead of adding one |
| AppShell.Render | App.tsx:41-71 | the login screen iff there is no user; the matcher iff the view is the matcher and a project id is set; the list and inventory panels for their views |
| AppShell.AtMostOnePanel | App.tsx:63-71 | the three panel conditions exclude one another (immediate: they test distinct views) |
| AppShell.AuthKeySeparate | App.tsx:20-29 | signing in or out leaves the catalog and the projects alone |
| AppShell.App.constructor | App.tsx:11-18 | start-up on the projects view with no project, restoring the stored user |
| AppShell.App.HandleLogin | App.tsx:20-24 | the user is set and stored under the sign-in key |
| AppShell.App.HandleLogout | App.tsx:26-29 | the user is cleared, the key removed, and the login screen shown |
| AppShell.App.HandleSelectProject | App.tsx:31-34 | the project becomes active in the matcher view, which shows it |
| AppShell.App.HandleBackToProjects | App.tsx:36-39 | back to the projects view, with no active project |
| AppShell.App.ChangeView | App.tsx:49-52 | leaving the matcher clears the active project |
| Types.WithField | components/ProjectMatcher.tsx:147 | `{ ...t, [field]: value }` sets that field and leaves the others |

## Left out

- Text.LowerChar: JavaScript's `toLowerCase` is modelled only on ASCII and Latin-1 capital letters. Other scripts and special mappings (such as U+0130) are not modelled. `trim` is exact for JavaScript's white-space set.
- The calls to the model service are not modelled: client creation, prompts and their fixed wording, model names, schemas and the image configuration. Their outcome is an input. `Gemini.InstructionPart` carries only the task summary.
- `JSON.parse` of the extraction response is not modelled. The parsed body is an input, and a parse failure is a thrown error, `Outcome.Threw`.
- `XLSX.read`, `sheet_to_json` and `FileReader` are not modelled. The importer starts from the cell grid, and uploaded files arrive as data URLs.
- SheetImport.CellText: a number cell is printed in plain decimal digits. This agrees with JavaScript's `String` only for integers of magnitude below 10^21. From 10^21 up JavaScript prints exponent form (`1e+21`), and integers beyond 2^53 are already rounded to doubles by the sheet reader. Neither is modelled. Fractional numbers, dates and other cell types are not modelled either (`SheetImport.Cell` holds integers only).
- ProductFormScreen.ProductForm.Submit: the browser's validation of the `type="url"` input (components/ProductForm.tsx:83), which blocks the submit event for a non-empty URL it cannot parse, is not modelled itself. Its verdict is the `urlAccepted` parameter.
- A failure of the sheet reader (the `catch` at components/ProjectMatcher.tsx:129-131) is not modelled.
- `alert`, `confirm`, `console` and `window.aistudio.openSelectKey` are not modelled:
  - alerts are replaced by the returned error or outcome values;
  - confirmation is a flag;
  - opening the key selector after `KEY_NOT_FOUND` is left out.
- `Math.random` ids and `toLocaleDateString` dates are parameters. The code does not guarantee distinct ids, and nothing here relies on it.
- The storage model assumes the JSON round trip is lossless and that each key holds the list shape written to it (`StorageService.WellFormed`).
- The `getProducts` branch on an empty stored string is not modelled. An empty string cannot be written by the gateway.
- Asynchrony is not modelled: `await`, the busy flags `isProcessing` and `isVisualizing`, and the stale `project` captured by `handleImport` before its `await`. Each handler runs to completion on the state it starts from.
- UI-only state is not modelled: the open drop-down (`activeDropdown`), the import tab (`importMode`), the creation panel toggle, clicks on history images, the download link, styling and icons.
- The matcher's inline "add to catalog" form (components/ProjectMatcher.tsx:495-500) is not modelled. Nothing ever sets `isAddingProduct` to a name, so the form is never shown.
- The card counters (components/ProjectList.tsx:103, 106) are the lengths of `tasks` and `generatedImages`. Their changes are stated by `ProjectEdits.WithTaskAdded` and `ProjectEdits.WithImageAppended`.
- components/Login.tsx and components/Sidebar.tsx are not part of this model: a fixed credential comparison, and a polling timer with highlighting.
- `MatchResult` in types.ts is not part of this model, because nothing uses it.
