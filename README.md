# In-memory collection logic of the Angular tutorial exercises

A Dafny model of the four pieces of behaviour in the tutorial repository that
are more than framework wiring:

- **Editable task list** (`TaskList`, from exercise 05.0): an ordered list of
  tasks with a text box for a new task. Each task has a committed
  `description` and an edit session made of an `editing` flag and a `draft`.
  The operations are add (trimmed, blank input ignored), begin edit, save,
  cancel and remove. The component is the class `TaskListComponent`, holding
  `newTask` and `tasks: seq<Task>`. Each step of the edit session is a function
  on one `Task` value (`BeginEdit`, `TypeDraft`, `Save`, `Cancel`), and each
  method is proved to apply that function at its index and change nothing
  else. The invariant `Valid()` holds after every operation: a task has a
  draft exactly while it is being edited, and every description is trimmed
  and not blank.
- **Shared roster store** (`Students`, from exercise 06): `StudentsService` owns
  one JavaScript array, modelled as the class `StudentArray`. `addStudent`
  appends a trimmed `{name, acty}` pair, or does nothing if either argument
  is `null`/`undefined` or blank. `getAllStudents` returns that same array
  object. `AddTo` is the function on lists that `addStudent` is proved
  against.
- **Roster view** (`StudentView`): `StudentComponent` holds the store it was
  given. It takes the store's array in `ngOnInit`, forwards adds to the store
  and then re-reads the list. Since the array is shared by reference, an add
  made through any view shows up in every view that has run `ngOnInit`.
- **Login validator** (`Login`, from exercise 01.1): the username check
  (trimmed length above 5) and the password regular expression
  `^(?=.*[a-z])(?=.*[A-Z])(?=.*\d)(?=.*[\W_]).{8,}$`. The regex is written out
  construct by construct (`PasswordMatches`) and proved equal to a plain
  rule (`PasswordValid`). `onSubmit` writes one of the two messages.

Two helper modules model the JavaScript built-ins the components call.
`JsStrings` models `String.prototype.trim` over the ECMAScript WhiteSpace and
LineTerminator characters. `JsArray` models `Array.prototype.splice(start, 1)`
(section 23.1.3.31 of ECMA-262). `Wrappers` holds `Option`, which stands for
JavaScript's `undefined`/`null` and for an absent property.

Two behaviours worth knowing:
- The roster add rejects a record when either field is blank.
- `removeTask` uses `splice`'s own handling of out-of-range indices: a
  negative index counts from the end, and an index at or past the end
  removes nothing.

## Model

| member | source | states |
|---|---|---|
| `TaskList.NewTask` | 05.0-displaying-a-list/src/app/app.component.ts:22-24 | for non-blank text, the pushed task has the trimmed text as its description, is not being edited, and is well formed |
| `TaskList.WellFormed` | 05.0-displaying-a-list/src/app/app.component.ts:21-51 | the task invariant: a draft exists exactly while `editing` is true, and the description is trimmed and not blank |
| `TaskList.BeginEdit` | 05.0-displaying-a-list/src/app/app.component.ts:29-33 | `editTask` on one task: editing, draft equal to the description, description unchanged |
| `TaskList.TypeDraft` | 05.0-displaying-a-list/src/app/app.component.ts:7 | typing into the `draft` box of a task being edited sets the draft to the typed text and keeps the description and the edit session |
| `TaskList.Save` | 05.0-displaying-a-list/src/app/app.component.ts:36-44 | `saveTask` on one task: the trimmed draft (`""` if absent) replaces the description unless it is empty; editing and draft are cleared either way |
| `TaskList.Cancel` | 05.0-displaying-a-list/src/app/app.component.ts:47-51 | `cancelEdit` on one task: editing and draft cleared, description never changed |
| `TaskList.EditStepsPreserveWellFormed` | 05.0-displaying-a-list/src/app/app.component.ts:29-51 | beginning an edit, typing into the draft and cancelling each keep "draft iff editing" and a committed description |
| `TaskList.SavePreservesWellFormed` | 05.0-displaying-a-list/src/app/app.component.ts:36-44 | saving keeps the task well formed: only a non-blank, trimmed draft becomes the description |
| `TaskList.EditThenCancel` | 05.0-displaying-a-list/src/app/app.component.ts:29-51 | `editTask` then `cancelEdit`, with or without typing in between, gives back the original description with editing false and no draft |
| `TaskList.SaveBlankDiscards` | 05.0-displaying-a-list/src/app/app.component.ts:38-43 | editing, typing a blank draft and saving leaves the description as it was and ends the edit |
| `TaskList.SaveCommitsTrimmed` | 05.0-displaying-a-list/src/app/app.component.ts:38-43 | editing, typing a non-blank draft and saving commits the trimmed draft, which is itself a committed description |
| `TaskList.SaveUnchangedDraft` | 05.0-displaying-a-list/src/app/app.component.ts:29-44 | saving right after `editTask` keeps a committed description unchanged |
| `TaskList.BeginEditReseeds` | 05.0-displaying-a-list/src/app/app.component.ts:29-33 | a second `editTask` re-seeds the draft from the description, discarding what was typed; it does not toggle |
| `TaskList.RemovePreserves` | 05.0-displaying-a-list/src/app/app.component.ts:54-56 | removing with `splice` at any index keeps every remaining task well formed |
| `TaskList.TaskListComponent.constructor` | 05.0-displaying-a-list/src/app/app.component.ts:17-18 | the text box starts as `''` and the list starts empty |
| `TaskList.TaskListComponent.Valid` | 05.0-displaying-a-list/src/app/app.component.ts:21-51 | every task in the list is well formed; each method below keeps this |
| `TaskList.TaskListComponent.AddTask` | 05.0-displaying-a-list/src/app/app.component.ts:21-26 | blank text box: list and text box unchanged; otherwise exactly `NewTask(text)` is appended, earlier tasks are kept, and the text box becomes `''` |
| `TaskList.TaskListComponent.EditTask` | 05.0-displaying-a-list/src/app/app.component.ts:29-33 | the task at the index becomes `BeginEdit` of itself; every other task and the text box are unchanged |
| `TaskList.TaskListComponent.EditDraft` | 05.0-displaying-a-list/src/app/app.component.ts:7 | typing into the draft of a task being edited changes only that task's draft |
| `TaskList.TaskListComponent.SaveTask` | 05.0-displaying-a-list/src/app/app.component.ts:36-44 | the task at the index becomes `Save` of itself; nothing else changes; the invariant is kept |
| `TaskList.TaskListComponent.CancelEdit` | 05.0-displaying-a-list/src/app/app.component.ts:47-51 | the task at the index becomes `Cancel` of itself; nothing else changes |
| `TaskList.TaskListComponent.RemoveTask` | 05.0-displaying-a-list/src/app/app.component.ts:54-56 | the list becomes `splice(index, 1)` of the old list, which for `0 <= index < length` is `tasks[..index] + tasks[index+1..]` |
| `TaskList.AddScenario` | 05.0-displaying-a-list/src/app/app.component.ts:21-26 | adding `"  Buy milk "` to an empty list gives exactly `[{description: "Buy milk", editing: false}]` |
| `TaskList.SaveEmptyScenario` | 05.0-displaying-a-list/src/app/app.component.ts:21-44 | for task "A": after `editTask(0)` the draft is "A"; emptying the draft and saving leaves `{description: "A", editing: false}` |
| `JsArray.SpliceStart` | 05.0-displaying-a-list/src/app/app.component.ts:55 | where `splice` starts: within the list for any integer, the index itself when in range, counted from the end when negative (0 if still below), the length when past the end |
| `JsArray.SpliceOne` | 05.0-displaying-a-list/src/app/app.component.ts:55 | the list loses one element exactly when the start position falls inside it |
| `JsArray.SpliceInRange` | 05.0-displaying-a-list/src/app/app.component.ts:55 | for an index in range: the length drops by one, earlier elements keep their place, later ones move down by one |
| `JsArray.SplicePastEnd` | 05.0-displaying-a-list/src/app/app.component.ts:55 | an index at or past the end removes nothing |
| `JsArray.SpliceFromEnd` | 05.0-displaying-a-list/src/app/app.component.ts:55 | a negative index `-n` (n at most the length) removes the n-th element from the end |
| `JsArray.SpliceSubset` | 05.0-displaying-a-list/src/app/app.component.ts:55 | every element left after a splice was in the original list |
| `JsStrings.IsWhiteSpace` | 05.0-displaying-a-list/src/app/app.component.ts:22 | the characters `trim` strips are exactly the 25 listed in `WhiteSpaceTable` (ECMAScript WhiteSpace and LineTerminator) |
| `JsStrings.TrimStart` | 05.0-displaying-a-list/src/app/app.component.ts:22 | the leading trim never lengthens a string, and shortens it only when it starts with whitespace |
| `JsStrings.TrimEnd` | 06-adding-services/src/app/students.service.ts:14 | the trailing trim never lengthens a string, and shortens it only when it ends with whitespace |
| `JsStrings.Trim` | 06-adding-services/src/app/students.service.ts:13-14 | `trim` never lengthens a string, and returns a non-empty string with no outer whitespace unchanged |
| `JsStrings.TrimStartShape` | 05.0-displaying-a-list/src/app/app.component.ts:22 | the leading trim keeps a suffix, drops only whitespace, and stops at a non-whitespace character |
| `JsStrings.TrimEndShape` | 05.0-displaying-a-list/src/app/app.component.ts:22 | the trailing trim keeps a prefix, drops only whitespace, and stops at a non-whitespace character |
| `JsStrings.TrimShape` | 05.0-displaying-a-list/src/app/app.component.ts:22-23 | `trim` leaves no outer whitespace and returns `""` exactly for an all-whitespace string (the blank test) |
| `JsStrings.LeadCount` | 05.0-displaying-a-list/src/app/app.component.ts:22 | the number of leading characters `trim` drops; all of them are whitespace |
| `JsStrings.TrimDecompose` | 05.0-displaying-a-list/src/app/app.component.ts:22 | a string is leading whitespace, then its trim, then trailing whitespace |
| `JsStrings.TrimPadded` | 05.0-displaying-a-list/src/app/app.component.ts:22 | whitespace around a string with no outer whitespace is exactly what `trim` removes |
| `JsStrings.TrimIdempotent` | 06-adding-services/src/app/students.service.ts:14 | trimming an already trimmed string changes nothing |
| `JsStrings.TrimIgnoresPadding` | 01.1-knowing-the-editor/src/app/app.component.ts:17 | adding whitespace around a string does not change its trim |
| `Students.AddTo` | 06-adding-services/src/app/students.service.ts:12-15 | the old list stays as a prefix; one record is added exactly when neither argument is missing, and that record is the trimmed pair |
| `Students.Missing` | 06-adding-services/src/app/students.service.ts:13 | `!x?.trim()` holds exactly when the argument is `null`/`undefined` or made only of whitespace |
| `Students.AddToPreservesClean` | 06-adding-services/src/app/students.service.ts:13-14 | if every stored record has non-blank, trimmed fields, that still holds after any add |
| `Students.AddToIgnoresPadding` | 06-adding-services/src/app/students.service.ts:13-14 | whitespace around either argument does not affect what is stored |
| `Students.StudentArray.constructor` | 06-adding-services/src/app/students.service.ts:10 | a new array is empty |
| `Students.StudentArray.Push` | 06-adding-services/src/app/students.service.ts:14 | `push` appends one element at the end, in place |
| `Students.StudentsService.constructor` | 06-adding-services/src/app/students.service.ts:10 | the store starts with a fresh, empty array |
| `Students.StudentsService.AddStudent` | 06-adding-services/src/app/students.service.ts:12-15 | the shared array becomes `AddTo` of its old contents, and stored records stay clean |
| `Students.StudentsService.GetAllStudents` | 06-adding-services/src/app/students.service.ts:17-19 | returns the store's own array object (no copy) and modifies nothing |
| `Students.SharedListScenario` | 06-adding-services/src/app/students.service.ts:17-19 | two callers that fetched the list earlier both see a record added later; a blank add is ignored |
| `StudentView.StudentComponent.constructor` | 06-adding-services/src/app/student/student.component.ts:11-13 | the view holds the given store and starts with its own empty list |
| `StudentView.StudentComponent.NgOnInit` | 06-adding-services/src/app/student/student.component.ts:15-17 | afterwards the view's list is the store's array itself |
| `StudentView.StudentComponent.AddStudent` | 06-adding-services/src/app/student/student.component.ts:19-23 | forwards both arguments unchanged; afterwards the view's list is the store's array and its contents are `AddTo` of the store's old contents (unchanged for blank input) |
| `StudentView.AddThroughOther` | 06-adding-services/src/app/student/student.component.ts:16-22 | an add through any view of the same store is visible in an attached view without a refresh |
| `StudentView.TwoViewsScenario` | 06-adding-services/src/app/student/student.component.ts:11-22 | view A adds {Sam, Chess}; view B sees it; a view that never ran `ngOnInit` still shows `[]` |
| `Login.LookaheadIsContains` | 01.1-knowing-the-editor/src/app/app.component.ts:18 | for a string with no line terminator, a lookahead `(?=.*[k])` at the start holds iff some character is in class k |
| `Login.UsernameValid` | 01.1-knowing-the-editor/src/app/app.component.ts:17 | a valid username has at least 6 characters; one without outer whitespace is valid exactly when it has at least 6 |
| `Login.PasswordMatches` | 01.1-knowing-the-editor/src/app/app.component.ts:18 | the regular expression read literally: four lookaheads at position 0, each a run of non-line-terminators followed by a character of its class, then 8 or more non-line-terminators up to the end |
| `Login.PasswordValid` | 01.1-knowing-the-editor/src/app/app.component.ts:18 | the plain rule that `PasswordMatchesIff` proves equal to the regex: length at least 8, no line terminator, one character of each class |
| `Login.PasswordMatchesIff` | 01.1-knowing-the-editor/src/app/app.component.ts:18 | the regex accepts a password iff it has at least 8 characters, no line terminator, and at least one lower-case letter, upper-case letter, digit and `[\W_]` character |
| `Login.PasswordNeedsEachClass` | 01.1-knowing-the-editor/src/app/app.component.ts:18 | a password missing any one of the four classes is rejected |
| `Login.PasswordRejectsLineTerminator` | 01.1-knowing-the-editor/src/app/app.component.ts:18 | a password with a line terminator anywhere is rejected |
| `Login.UsernameIgnoresPadding` | 01.1-knowing-the-editor/src/app/app.component.ts:17 | whitespace around a username does not change whether it is valid |
| `Login.UsernameExamples` | 01.1-knowing-the-editor/src/app/app.component.ts:17 | "abcdef" is valid, "abcde" is not, and "  abcde  " is not |
| `Login.PasswordNotTrimmed` | 01.1-knowing-the-editor/src/app/app.component.ts:18 | "Ab1" followed by five spaces is valid, because the spaces count towards the length and as the symbol; its trim is not valid |
| `Login.PasswordUnderscoreCounts` | 01.1-knowing-the-editor/src/app/app.component.ts:18 | "Secret_1" is valid: `_` is in `[\W_]` |
| `Login.PasswordRejections` | 01.1-knowing-the-editor/src/app/app.component.ts:18 | "Secret12" (no symbol) and "Secret_1\n" (line terminator) are rejected |
| `Login.SubmitMessage` | 01.1-knowing-the-editor/src/app/app.component.ts:20-24 | the success message iff the username and the password are both valid, and the error message otherwise |
| `Wrappers.Option.GetOr` | 05.0-displaying-a-list/src/app/app.component.ts:38 | `x ?? d`: the value when present, `d` when absent |
| `Login.LoginComponent.constructor` | 01.1-knowing-the-editor/src/app/app.component.ts:12-14 | username, password and message start as `''` |
| `Login.LoginComponent.OnSubmit` | 01.1-knowing-the-editor/src/app/app.component.ts:16-25 | `message` becomes `SubmitMessage(username, password)`; username and password are unchanged and nothing else can change, so a second submit writes the same message |

## Left out

- Angular machinery is not modelled: `@Component`, `@Injectable`, `@NgModule`, dependency injection with `providedIn: 'root'`, and when lifecycle hooks run. The store is an object passed to the view's constructor, and `NgOnInit` is a method the caller invokes.
- The `alert` in the roster view's `addStudent` is a UI side effect and is dropped.
- Templates are not part of this model. The component fields they bind (`newTask`, `username`, `password`) are set directly by the caller. The task edit box's binding to `draft` is the method `EditDraft`, which requires the task to be in editing mode, since the box is only shown then.
- `editTask`, `saveTask` and `cancelEdit` with an index outside `[0, length)` throw a TypeError in the source. The model requires a valid index instead.
- Indices are integers: a fractional or NaN `number` passed to `splice` is not modelled.
- Strings are sequences of Unicode scalar values. `length` is the sequence length, not the UTF-16 code-unit count, so a character outside the Basic Multilingual Plane counts once here. The same affects `PasswordMatches`: JavaScript runs the regex over UTF-16 code units, so `"Ab1😀😀😀"` is 9 units long and a lone surrogate matches `[\W_]`, and JavaScript accepts it; the model counts 6 characters and rejects it.
- `trim` uses the fixed ECMAScript whitespace set, with the Unicode space separators written out.
- The regex engine is not modelled: the one regular expression is written out construct by construct.
- An unset `editing` on a new task and `editing == false` are both falsy in the source. Here both are `false`.
- Tasks are values in a sequence. A task object that some other holder changes in place (aliasing of individual tasks) is not captured.
- `private` on the store's array is not enforced: any holder of the array returned by `getAllStudents` could `push` onto it directly. The clean-record invariant is proved only for adds made through `addStudent`.
- `null`/`undefined` arguments to `addStudent` are `None`.
- The faculty view is not modelled. It only takes `getAllStudents()` in `ngOnInit`, the same aliasing `NgOnInit` shows.
- Also not modelled: the form-template exercise (its validity comes from an `NgForm` in a template and from the forms library), the routing modules, the static list exercise and the generated component test.
