# Kanban client data layer in Dafny

This project models the in-memory data layer of a kanban task-manager web client. It
covers the arrays of users, contacts and tasks the client caches from its remote JSON
store, and how they are rebuilt. It also covers what the board, the add-task form, the
summary, the contact list, sign-up, login and the shared page frame do with them:
- moving a task between the four columns (open, in progress, await feedback, done);
- ticking subtasks and merging edited subtasks;
- searching, and the summary counts;
- staging subtasks and assignees in the add-task form;
- the validators (title and date, contact form, e-mail and full-name patterns);
- the login branches and the local-storage keys that login and logout leave behind;
- the highlighting of the navigation menu.

One Dafny module stands for each script:

| module | script |
|---|---|
| `Storage` | `js/storage.js` |
| `Board` | `js/board.js` |
| `BoardAssistance` | `js/boardAssistance.js` |
| `BoardSupply` | `js/boardSupply.js` |
| `AddTask` | `js/addTask.js` |
| `AddTaskSubTask` | `js/addTaskSubTask.js` |
| `Summary` | `js/summary.js` |
| `BoardHtml` | `js/html/boardHTML.js` |
| `ContactPage` | `js/contact.js` |
| `SignUp` | `js/signUp.js` |
| `Login` | `js/login.js` |
| `Main` | `js/main.js` |

Two shared modules sit under them:
- `Common`: `Option`, JavaScript string operations such as trim, case mapping, split/join and `includes`, and the `find`/`filter` helpers.
- `Entities`: the stored records and the `find` look-ups.

How the model is shaped:
- The scripts' global arrays are fields of the class `Storage.Store`, and `localStorage` is the class `Storage.LocalStorage` over a string map. Handlers that change them are methods whose `modifies` clauses name the fields they may change and whose `ensures` give the new value of each of those fields, case by case.
- The remote store is a `Server` snapshot passed to each handler.
- Every PUT and POST is appended to the store's `writes` log.
- Whether a PUT succeeds is a boolean parameter where the script reacts to failure.
- `btoa`/`atob` are an opaque `Codec` pair. Lemmas that need decode-after-encode require `RoundTrips(codec)`.
- DOM state that handlers flip in place is modelled by classes: the board's containers, warning and move menus (`Board.BoardView`), the add-task form inputs (`AddTask.AddTaskForm`), the login error display (`Login.LoginPage`) and the menu class lists (`Main.NavMenu`).

Where the documentation and the code disagree, the model follows the code:
- `saveSubtaskItem` overwrites the first staged subtask. It does not leave the list unchanged (see Findings).
- `validateEmail` rejects `a@b.c`, because the last dot-part must be 2 to 4 letters.
- `addEditSubtask` creates an empty subtask list for a task that had none, even when the input is blank.
- `saveEditTask` sends the task's subtasks, renamed from the edit inputs. These include the ones `addEditSubtask` put into the task from the dialog. The add-task form's staged subtasks, which `getEditFormData` appends, are not sent.
- After `logout` with remember-me "true" but no password token, the token is stored as the text "null".
- `guestLogin` sets a flag that a later regular login does not clear. While it is set, every page resolves the guest account.

## Model

| member | source | states |
|---|---|---|
| Storage.Keyed | js/storage.js:120-127 | reference definition of a rebuilt cache: one entry per key of the fetched object, in key order, and each entry's id is its key |
| Storage.KeyedExtend | js/storage.js:120-127 | one more iteration of the `for…in` loop pushes exactly the next keyed record |
| Storage.FindKeyedTask | js/storage.js:195-200 | after a rebuild from distinct keys, looking a task up by its key finds the record stored under that key |
| Storage.Entries | js/storage.js:173-178 | a user with nothing stored under them has no records |
| Storage.ResolveUserId | js/storage.js:252-264 | the guest flag "true" always gives the fixed guest id; otherwise the result is the id of the first user whose e-mail is the decoded token, or none |
| Storage.Store.RefreshUsers | js/storage.js:117-128 | the old users are discarded and replaced by the fetched ones, keyed |
| Storage.Store.GetUserId | js/storage.js:252-264 | refetches the users and returns the id the resolution rule picks |
| Storage.Store.RefreshContacts | js/storage.js:162-180 | with a resolved owner, the contacts are exactly that owner's records keyed; with none, the handler throws and the contacts stay unchanged |
| Storage.Store.RefreshTasks | js/storage.js:191-202 | the tasks are exactly the records under the resolved user's path, keyed, replacing the old ones |
| Storage.AsIncomplete | js/storage.js:239 | each staged text becomes a subtask of that name, not completed, keeping order and count |
| Storage.AsIncompleteNames | js/storage.js:239 | converting staged texts loses nothing: the names give back the texts, and none is completed |
| Storage.GetFormData | js/storage.js:231-241 | the form data carries the inputs, the selected assignees and the staged subtasks as incomplete records |
| Storage.ValidateFormData | js/storage.js:276-283 | a task is valid exactly when both title and date are non-empty |
| Storage.NormalizeStatus | js/storage.js:306 | the stored status is in progress or await feedback exactly when requested, and open for any other input |
| Storage.NewTaskBody | js/storage.js:295-315 | the posted task carries the form's title, description, date, priority, category and assignees, its staged subtasks and the normalised status, with no id |
| Storage.Store.SaveTask | js/storage.js:295-315 | an invalid form posts nothing and fetches nothing; a valid one posts the task body to the resolved user's task path exactly when the resolved id is truthy (present and not empty) |
| Entities.FindTask | js/board.js:139 | the index found is the first task with that id; none exactly when no task has it |
| Entities.FindUserByEmail | js/storage.js:261 | a found user is in the array and has the e-mail; none exactly when no user has it |
| Entities.FindContactById | js/contact.js:272 | a found contact is in the array and has the id; none exactly when no contact has it |
| Entities.FindContactByName | js/addTask.js:296 | the first contact with that name; none exactly when no contact has it |
| Entities.AssignedLabel | js/addTask.js:303 | reference definition of the assignee input text: empty exactly for no selection, otherwise "An: " and the names joined by ", " |
| Entities.AssignedLabelSingle | js/addTask.js:303 | with one contact picked the label names just that contact |
| Board.Column | js/board.js:226-231 | a column holds exactly the tasks of its status, from the task array |
| Board.ColumnAppend | js/board.js:227 | the column of a concatenation is the concatenation of the columns, so array order is kept |
| Board.ColumnSnoc | js/board.js:307-318 | appending a task extends exactly the column of its status |
| Board.Unplaced | js/board.js:309-317 | the tasks no column shows are those whose status is none of the four |
| Board.ColumnsCoverTasks | js/board.js:307-318 | every task lands in exactly one column or, with an unknown status, in none |
| Board.ColumnAfterUpdate | js/board.js:142 | changing one task changes each column's size only by that task leaving or entering it |
| Board.Partition | js/board.js:307-318 | the loop gets through exactly the tasks before the first placed task without a priority, whose card throws, and fills each of the four columns with exactly the tasks of that status among them, in array order |
| Board.Rendered | js/board.js:219-234 | reference definition of a drawn board: each container shows its column's cards, or the placeholder when the column is empty |
| Board.NothingPlaced | js/board.js:279-285 | all four columns are empty exactly when no task has one of the four statuses |
| Board.DrawnColumns | js/board.js:222-233 | drawing column by column rewrites exactly the leading columns all of whose cards have a priority, and stops at the first column with one that has none |
| Board.Drawn | js/board.js:307-318 | drawing task by task gets through a prefix of the array in which every placed task has a priority, and stops only at a placed task without one |
| Board.DrawnIff | js/board.js:222-233 | the column-by-column redraw finishes exactly when the task-by-task drawing gets through every task |
| Board.FilledRendered | js/board.js:244-264 | filling the containers and then applying the placeholders gives `Rendered`, and all four were empty exactly when all four columns are |
| Board.FullyDrawnRendered | js/board.js:244-285 | a board drawn without a throw shows `Rendered` of the tasks, with no open menu, and the warning exactly when no task has one of the four statuses |
| Board.Redrawn | js/board.js:219-234 | a full redraw is the fully drawn board; a thrown one rewrites exactly the leading columns, keeps the rest and the warning, and closes only the menus on rewritten cards |
| Board.RedrawKeepsMenusOnCards | js/board.js:157-167 | whether or not it throws, a redraw leaves every open menu on a card that is shown |
| Board.Reloaded | js/board.js:295-321 | every menu is closed; with no throw it is the fully drawn board; otherwise each container holds its column of the tasks drawn before the throw and the warning is kept |
| Board.ReloadAgreesWithRedraw | js/board.js:219-321 | whenever either succeeds, reloading the tasks and redrawing them show the same board, whatever either started from |
| Board.BoardView.ShowEmptyWarning | js/board.js:279-285 | the warning is shown exactly when all four containers are empty, and nothing else changes |
| Board.BoardView.DisplayNoTasks | js/board.js:244-264 | the warning is decided on the containers as they were; each empty container gets its placeholder, the others keep their cards, and every open menu stays on a shown card |
| Board.BoardView.UpdateBoardHtml | js/board.js:219-234 | the containers are rewritten in status order until a column holds a card without a priority; the screen is exactly `Redrawn` of the old one, so a full redraw shows the rendering of the tasks and a thrown one keeps the later containers, the warning and the menus not on rewritten cards |
| Board.BoardView.RewriteColumns | js/board.js:222-233 | the loop rewrites exactly the first `DrawnColumns` containers, each with the cards of its column, keeps the rest, and closes exactly the menus on the cards it replaced |
| Board.BoardView.DrawTasks | js/board.js:299-320 | the containers are cleared, every menu closed, and the screen becomes exactly `Reloaded` from the tasks; it reports whether every card was drawn |
| Board.BoardView.DisplayTaskCard | js/board.js:295-321 | refetches the users and the resolved user's tasks, then the screen is exactly `Reloaded` from them: every menu closed, the tasks drawn into their columns up to the first card that throws, and the empty-column rules only when none throws |
| Board.BoardView.DisplayMoveToMenu | js/board.js:157-167 | a click closes the card's open menu, opens a closed one on a shown card, and changes nothing for a card that is not shown; every open menu stays on a shown card |
| Board.BoardView.CloseMoveToMenu | js/board.js:175-180 | the card's move menu is closed and the others are kept |
| Board.BoardView.StartDragging | js/board.js:117-120 | the dragged card becomes the current one |
| Board.BoardView.Move | js/board.js:132-148 | a found task gets the new status and nothing else of it changes, and the board is `Redrawn`; the task is PUT to the resolved user's path exactly when the redraw does not throw; an unknown id changes neither the tasks, the writes nor the screen |
| Board.BoardView.MoveTo | js/board.js:132-148 | the dragged task moves to the status and the board is redrawn; it is PUT only when no card throws; with no task of that id the tasks, the writes and the screen are unchanged |
| Board.BoardView.MoveToClick | js/board.js:189-209 | the task chosen in the menu moves to the status and the board is redrawn; it is PUT only when no card throws (the throw is caught); with no task of that id the tasks, the writes and the screen are unchanged |
| Board.GuestOverrideRedundant | js/board.js:133-138 | forcing the guest id after `getUserId` gives the id that `getUserId` already resolved |
| BoardSupply.SearchHits | js/boardSupply.js:7-29 | a task is shown exactly when its lower-cased title or description contains the lower-cased query |
| BoardSupply.EmptySearchShowsAll | js/boardSupply.js:16 | an empty query shows every task, in order |
| BoardSupply.SearchForTasks | js/boardSupply.js:7-29 | the screen is exactly `Reloaded` from the hits: menus closed, each hit drawn in the column of its status up to the first card that throws, and the warning decided only when none throws |
| BoardSupply.SpliceStart | js/boardSupply.js:216 | `splice`'s start index: negative counts from the end, and it is clamped to the length |
| BoardSupply.SpliceOne | js/boardSupply.js:216 | removes exactly the element at the start index and keeps the rest in order; an index past the end removes nothing |
| BoardSupply.SpliceOneUndoesInsert | js/boardSupply.js:216 | deleting at an index undoes inserting there |
| BoardSupply.DeleteSubtask | js/boardSupply.js:212-223 | only the named task's subtask list changes, by one splice at the index |
| BoardSupply.AddEditSubtask | js/boardSupply.js:281-306 | a missing task or a blank input adds nothing; otherwise the trimmed text is appended as an incomplete subtask and the input is cleared |
| BoardSupply.CheckedById | js/boardSupply.js:183-197 | the selection holds exactly the contacts of checked boxes whose id exists |
| BoardSupply.NoneChecked | js/boardSupply.js:183-197 | with no box checked nothing is selected |
| BoardSupply.UpdateSelectedAssignedAndInputField | js/boardSupply.js:182-199 | the global selection is rebuilt from the checked ids and the input shows its label |
| BoardSupply.FillSelectedAssigned | js/boardSupply.js:136-144 | the selection becomes the task's assignees when the task is found |
| BoardSupply.EditSubtasks | js/boardSupply.js:364-366 | the existing subtasks unchanged, followed by the staged texts as incomplete subtasks |
| BoardSupply.EditFormDataOf | js/boardSupply.js:352-378 | the inputs' values; category and status from the current task; subtasks only when the task had them |
| BoardSupply.GetEditFormData | js/boardSupply.js:352-378 | also refreshes the selection from the checked boxes and returns the label |
| BoardAssistance.FlipAt | js/boardAssistance.js:213 | exactly the subtask at the index changes, and only its completed flag |
| BoardAssistance.FlipTwice | js/boardAssistance.js:213 | toggling the same subtask twice restores the list |
| BoardAssistance.FlipCount | js/boardAssistance.js:219 | a toggle moves the completed count by one, up or down |
| BoardAssistance.Toggled | js/boardAssistance.js:213 | the toggled task differs from the original only in that subtask |
| BoardAssistance.ReplaceById | js/boardAssistance.js:223 | same length; every entry with the id is the new task and the others are unchanged |
| BoardAssistance.ReplaceUniqueIsNoop | js/boardAssistance.js:223 | replacing the only task with that id by itself leaves the array as it is |
| BoardAssistance.ToggleSubtask | js/boardAssistance.js:200-228 | an unknown task changes and sends nothing and leaves the screen as it was; otherwise one flag flips, the task is PUT, the progress is completed over total, a failed save keeps the local flip, and the board is `Redrawn` from the resulting tasks |
| BoardAssistance.MergeNames | js/boardAssistance.js:39-45 | keeps length and completed flags; the name comes from the edit input when one is present |
| BoardAssistance.MergeKeepsProgress | js/boardAssistance.js:39-45 | renaming subtasks never changes how many are done |
| BoardAssistance.MergeWithoutInputs | js/boardAssistance.js:43 | with no edit inputs present the subtasks are sent back unchanged |
| BoardAssistance.EditedTaskBody | js/boardAssistance.js:24-32 | the PUT body holds the form data and, when the task had subtasks, the merged ones |
| BoardAssistance.SendEditedTask | js/boardAssistance.js:47-67 | with no user id, or an empty one, nothing is sent and the screen is unchanged; otherwise the body is PUT, and a successful save refetches the tasks and leaves the screen `Reloaded` from them, while a failed one leaves it unchanged |
| BoardAssistance.SaveEditTask | js/boardAssistance.js:9-69 | an unknown task returns before reading the form, sending anything or touching the screen; otherwise it sends the edited body under a truthy user id, and a successful save reloads the board from the refetched tasks |
| AddTask.SelectedPriority | js/addTask.js:107-129 | the first checked radio's value and icon; none exactly when no radio is checked |
| AddTask.CheckRadio | js/addTaskSubTask.js:249 | setting a radio's `checked`, with the browser unchecking the rest of its group: only checked flags change; the first radio with that id becomes the only checked one; an unknown id changes nothing |
| AddTask.CheckedRadioIsSelected | js/addTask.js:107-129 | after checking a radio, the priority read back is that radio's |
| AddTask.NamedIn | js/addTask.js:271-272 | whether some selected contact has the name; none when a null entry is reached first |
| AddTask.BoxesFor | js/addTask.js:189-196 | one unchecked box per contact, carrying its name |
| AddTask.MarkBoxes | js/addTask.js:266-275 | marking keeps every box's value |
| AddTask.MarkBoxesMatchSelection | js/addTask.js:271-272 | a box is checked exactly when a selected contact has its name |
| AddTask.CheckedByName | js/addTask.js:288-305 | the selection holds only contacts, each found by the name of a checked box |
| AddTask.CheckedNamePicked | js/addTask.js:296-299 | every checked box whose name belongs to a contact adds that name's first contact |
| AddTask.AddTaskForm.TitleQuery | js/addTask.js:317-329 | false exactly for an empty title, and the error shows exactly then |
| AddTask.AddTaskForm.DateQuery | js/addTask.js:341-352 | false exactly for an empty date, and the error shows exactly then |
| AddTask.AddTaskForm.ToggleCategoryDropdown | js/addTask.js:72-82 | each call flips the category dropdown between open and closed |
| AddTask.AddTaskForm.SetCheckedAssigned | js/addTask.js:266-275 | the boxes are marked from the selection |
| AddTask.AddTaskForm.ToggleAssignedDropdown | js/addTask.js:22-40 | the dropdown flips open or closed, and its boxes are redrawn from the contacts, checked from the selection |
| AddTask.AddTaskForm.SelectAssigned | js/addTask.js:288-305 | the selection is rebuilt from the checked names and the input shows its label |
| AddTask.AddTaskForm.Values | js/storage.js:231-238 | the values read are the form's inputs and the selected priority |
| AddTaskSubTask.Without | js/addTaskSubTask.js:169 | every entry equal to the text is removed and all others are kept |
| AddTaskSubTask.WithoutCounts | js/addTaskSubTask.js:169 | duplicates of the text all vanish, and every other text keeps its count |
| AddTaskSubTask.MovedFirst | js/addTaskSubTask.js:191-192 | the edited text comes first, followed by the others in order |
| AddTaskSubTask.EditedOnce | js/addTaskSubTask.js:191-192 | after an edit the text is present exactly once, and other counts are unchanged |
| AddTaskSubTask.OverwriteFirst | js/addTaskSubTask.js:214-219 | as written: the typed text replaces the first entry whatever item was saved |
| AddTaskSubTask.Renamed | js/addTaskSubTask.js:209-227 | corrected: every entry equal to the edited text takes the typed text, and the others are kept |
| AddTaskSubTask.EditThenSave | js/addTaskSubTask.js:183-227 | directly after an edit, the as-written save and the corrected one agree |
| AddTaskSubTask.SaveAfterTwoEditsHitsWrongEntry | js/addTaskSubTask.js:214-219 | counterexample: two edits then a save of the first edited item overwrites the wrong entry |
| AddTaskSubTask.RenamedCounts | js/addTaskSubTask.js:209-227 | corrected save: the old text is gone, its count moves to the new text, and all other counts are kept |
| AddTaskSubTask.AddSubtaskItem | js/addTaskSubTask.js:105-119 | an empty input changes nothing; otherwise the raw text is appended, the list redrawn and the input cleared |
| AddTaskSubTask.DeleteSubtaskItem | js/addTaskSubTask.js:166-171 | every staged copy of the input's present text is removed, and only that list item is taken out of the list |
| AddTaskSubTask.EditSubtaskItem | js/addTaskSubTask.js:183-197 | the item's text is moved to the front of the staged list |
| AddTaskSubTask.SaveSubtaskItem | js/addTaskSubTask.js:209-227 | as written: the item shows the typed text, and the typed text overwrites the first staged entry |
| AddTaskSubTask.ClearForm | js/addTaskSubTask.js:236-250 | selection, staged subtasks and inputs are emptied, and the Medium radio is checked |
| AddTaskSubTask.ClearedPriorityIsMedium | js/addTaskSubTask.js:249 | after clearing, the priority read back is Medium |
| Summary.StatusCount | js/summary.js:100-135 | a status count never exceeds the number of tasks |
| Summary.StatusCountIsColumnSize | js/summary.js:100-135 | each status count is the size of that board column |
| Summary.StatusCountsWithinTotal | js/summary.js:100-157 | the four counts add up to the total minus the tasks with an unknown status |
| Summary.UrgentCount | js/summary.js:144-146 | fails exactly when a task has no priority; zero exactly when none is urgent; the total exactly when all are |
| Summary.TotalCount | js/summary.js:155-157 | the total is the array length and bounds every status count |
| Summary.Greeting | js/summary.js:63-91 | morning for hours 0–9, noon for 10–17, evening from 18; guests get "!" and users ","; nothing for a negative hour |
| Summary.GreetingName | js/summary.js:306-318 | empty for a guest; otherwise the name of a user whose non-empty e-mail is the decoded token |
| Summary.GreetingNameIsResolvedUser | js/summary.js:311-318 | the name greeted is that of the account the other pages resolve |
| Summary.Earliest | js/summary.js:241-250 | one of the dates, no later than any other; the first such one |
| Summary.UrgentDates | js/summary.js:241-243 | exactly the dates of urgent tasks |
| Summary.Deadline | js/summary.js:238-251 | fails exactly when a task has no priority; nothing when no task is urgent; otherwise the earliest urgent date |
| BoardHtml.CategoryColor | js/html/boardHTML.js:77-89 | no badge without a category; the technical-task colour exactly for "Technical Task", the story colour otherwise |
| BoardHtml.Drawn | js/html/boardHTML.js:107-121 | draws exactly the non-null assignees |
| BoardHtml.DrawnPresent | js/html/boardHTML.js:113-118 | an assignment without nulls is drawn entry for entry |
| BoardHtml.DrawnCount | js/html/boardHTML.js:194-215 | as many are drawn as there are non-null entries |
| BoardHtml.EditIcons | js/html/boardHTML.js:461-470 | the edit dialog has no null guard: it fails exactly on a null entry, and otherwise draws every entry |
| BoardHtml.EditIconsAgreeWithCard | js/html/boardHTML.js:461-470 | where the dialog draws anything, it draws what the card draws |
| BoardHtml.Progress | js/html/boardHTML.js:124-144 | nothing without subtasks; otherwise completed over total, full exactly when all are done |
| BoardHtml.OverviewRows | js/html/boardHTML.js:218-236 | one row per subtask, with its index, ticked exactly when completed |
| BoardHtml.OverviewAgreesWithProgress | js/html/boardHTML.js:218-236 | the overview ticks as many rows as the progress bar counts done |
| BoardHtml.EditSubtaskInputs | js/html/boardHTML.js:439-458 | the edit inputs start with the subtask names |
| BoardHtml.UntouchedInputsKeepSubtasks | js/html/boardHTML.js:439-458 | saving with untouched inputs sends the subtasks back unchanged |
| BoardHtml.AssignedIds | js/html/boardHTML.js:371 | the assignees' ids in order; fails exactly on a null entry |
| BoardHtml.AssignDropdown | js/html/boardHTML.js:368-390 | one box per contact, checked exactly when that contact's id is assigned |
| BoardHtml.DropdownRoundTrip | js/html/boardHTML.js:368-390 | reading the untouched dropdown back selects every assigned contact that still exists |
| BoardHtml.EditAssignedText | js/html/boardHTML.js:240 | the dialog's assignee text starts with "An: "; fails exactly on a null entry |
| BoardHtml.EditTextMatchesLabel | js/html/boardHTML.js:240 | for a non-empty assignment the dialog's text is the add form's label; for nobody it is a bare "An: " |
| BoardHtml.PresentInjective | js/html/boardHTML.js:240 | different contact lists give different assignee arrays |
| BoardHtml.EditRadios | js/html/boardHTML.js:268-287 | three radios, each checked exactly when its value is the task's priority |
| BoardHtml.EditRadiosRoundTrip | js/html/boardHTML.js:268-287 | reading the dialog's priority back gives the task's priority, or none for an unknown value |
| BoardHtml.MoveTargets | js/html/boardHTML.js:33-48 | the move menu offers exactly the four statuses, in board order |
| ContactPage.NameLeqTotal | js/contact.js:31 | any two names are ordered one way or the other |
| ContactPage.NameLeqTransitive | js/contact.js:31 | the name order is transitive |
| ContactPage.InsertByName | js/contact.js:31 | inserting keeps every contact and adds exactly one |
| ContactPage.InsertKeepsSorted | js/contact.js:31 | inserting into a sorted list keeps it sorted |
| ContactPage.SortByName | js/contact.js:31 | the sort is a permutation of the contacts |
| ContactPage.SortByNameSorted | js/contact.js:31 | the sort's result is sorted by name |
| ContactPage.Group | js/contact.js:32-42 | a letter's group holds exactly the contacts whose upper-cased name starts with it |
| ContactPage.Sections | js/contact.js:32-42 | each section is a non-empty group of its letter, and every letter with a non-empty group gets a section |
| ContactPage.ListedIff | js/contact.js:32-42 | a contact is listed under a letter exactly when its upper-cased name starts with that letter |
| ContactPage.ListSections | js/contact.js:34-42 | the letter loop produces exactly the sections: one per letter whose group is non-empty, in alphabet order |
| ContactPage.DisplayContacts | js/contact.js:27-44 | with a container, the contacts are sorted in place and listed in sections; without one nothing changes |
| ContactPage.LastDot | js/contact.js:131 | the position of the last dot, if any |
| ContactPage.ValidateEmail | js/contact.js:130-138 | true exactly when the text matches the e-mail pattern |
| ContactPage.NoPatternWithout | js/contact.js:131 | a text without "@" or without "." is rejected |
| ContactPage.PatternCuts | js/contact.js:131 | the pattern's "@" and last dot are at fixed places, so the check need try only one split |
| ContactPage.ExampleEmailAccepted | js/contact.js:131 | "example@mail.com" is accepted |
| ContactPage.OneLetterEndingRejected | js/contact.js:131 | "a@b.c" is rejected |
| ContactPage.ValidateForm | js/contact.js:92-119 | each error shows exactly when its field fails, all three are checked, and the form is valid exactly when none fails |
| ContactPage.ContactInitials | js/contact.js:62 | initials have no spaces and are never longer than the name plus one |
| ContactPage.InitialsOfWords | js/contact.js:62 | for single-spaced words the initials are their first characters, not upper-cased |
| ContactPage.NewContact | js/contact.js:56-64 | the new contact carries the inputs, the initials of the name and the chosen colour |
| ContactPage.SaveContact | js/contact.js:53-80 | an invalid form posts nothing; a valid one posts the contact under the resolved user |
| ContactPage.GetContactById | js/contact.js:268-273 | a cached list is kept without a fetch; an empty cache is refetched with the users, failing exactly when no user is resolved and otherwise becoming that user's contacts keyed; the result is the contact with that id |
| ContactPage.SaveEditContact | js/contact.js:286-318 | the users are refetched first; the contact is looked up in the cached list, or the fetched one when the cache was empty; it is PUT with the new inputs and its old colour exactly when found, and nothing is written otherwise; after the PUT the contacts are the refetched list when the window is wide or the mobile view is open and the user is resolved, and the looked-up list otherwise |
| SignUp.NextGap | js/signUp.js:169 | the first whitespace at or after a position, or the end |
| SignUp.MoreWordsShape | js/signUp.js:169 | the repeated "whitespace then word" part matches exactly a text that starts with whitespace and has a letter after each whitespace |
| SignUp.ValidateName | js/signUp.js:168-176 | true exactly when the name matches the full-name pattern: two or more words of the listed letters, single whitespace between |
| SignUp.NamePatternIff | js/signUp.js:169 | the full-name pattern in terms of single characters |
| SignUp.FullNameAccepted | js/signUp.js:169 | a two-word name with an umlaut is accepted |
| SignUp.SingleWordRejected | js/signUp.js:169 | one word alone is rejected |
| SignUp.DoubleSpaceRejected | js/signUp.js:169 | two spaces between words are rejected |
| SignUp.ValidatePasswords | js/signUp.js:245-252 | true exactly when the two texts are equal |
| SignUp.GetInitials | js/signUp.js:134-136 | the initials are bounded by the name's length |
| SignUp.UpperOfAsciiLetters | js/signUp.js:135 | on ASCII letters, upper-casing maps each character to one |
| SignUp.InitialsOfFullName | js/signUp.js:134-136 | for single-spaced words the initials are their capitalised first letters |
| SignUp.CheckEmailAvailability | js/signUp.js:188-199 | true exactly when the reply arrived and some user has exactly that e-mail |
| SignUp.CheckEmail | js/signUp.js:148-156 | the negation: a failed request lets any e-mail through |
| SignUp.NewUser | js/signUp.js:285-293 | the account posted carries the inputs and the initials of the name |
| SignUp.SignUpRequest | js/signUp.js:111-123 | the account is posted to "/users" exactly when the e-mail is available, the name is a full name and the passwords match |
| SignUp.SignUpKeepsEmailsDistinct | js/signUp.js:111-123 | when the users were read, a sign-up never registers an e-mail twice |
| Login.CheckCredentials | js/login.js:66-101 | each empty input gives its own error before any fetch; otherwise the first user matching both e-mail and password logs in, and none matching gives the credentials error |
| Login.StoredAfterLogin | js/login.js:83-91 | the e-mail token is always written; remember-me writes the password token and "true", otherwise the token is removed and "false" written; other keys unchanged |
| Login.SavedCredentials | js/login.js:155-166 | the form is filled only when remember-me is "true" and both tokens are present, with their decoded values |
| Login.RememberedLoginRefills | js/login.js:83-91 | a remembered login fills the form with exactly what was typed; an unremembered one leaves it empty |
| Login.LoginResolvesUser | js/login.js:80-83 | after a login without the guest flag the pages resolve a user, and with distinct e-mails exactly the user who logged in |
| Login.SignedUpUserLogsIn | js/login.js:80-82 | an account just created by sign-up logs in with the e-mail and password typed there |
| Login.LoginPage.ShowError | js/login.js:115-125 | an empty label id marks both inputs; the span shows the message |
| Login.LoginPage.Login | js/login.js:66-101 | the outcome of the branch logic, the errors each branch shows, and local storage changed only on success |
| Login.GuestLogin | js/login.js:134-146 | when the guest account answers, the guest flag is set and nothing else changes |
| Main.AfterLogout | js/main.js:217-233 | with remember-me "true" exactly the two tokens and the flag are kept; with "false" only the e-mail token; otherwise nothing; the guest flag never survives |
| Main.Logout | js/main.js:217-233 | local storage after logout is exactly what the retention rule keeps |
| Main.LogoutKeepsSavedCredentials | js/main.js:217-233 | remembered credentials survive a logout unchanged |
| Main.LoginThenLogout | js/main.js:217-233 | after a remembered login and a logout the form fills with the credentials; after an unremembered one only the e-mail token is left |
| Main.SecondLogout | js/main.js:222-230 | a second logout keeps a remembered session but empties storage otherwise |
| Main.CurrentPage | js/main.js:245 | the first page whose path is the current one; none exactly when no page has it |
| Main.Sibling | js/main.js:259 | the exclusive link of the first page with the current path that has one; none exactly when no such page exists |
| Main.ActiveClasses | js/main.js:247-257 | every link gets "active"; "activeDesktop" exactly when its id ends in "Desktop"; icons get "activeDesktopIcon" plus the part before "Desktop" |
| Main.MenuAfter | js/main.js:243-267 | no page for the path changes nothing; the page's links gain their classes; the sibling link loses "active"; no other class is removed |
| Main.MenuAfterIdempotent | js/main.js:243-267 | highlighting twice is the same as highlighting once |
| Main.PrivacyPageLookup | js/main.js:1-31 | on the privacy page the current page is found and the legal-notice link is switched off |
| Main.LegalNoticeLookup | js/main.js:1-31 | on the legal-notice page the current page is found and the privacy link is switched off |
| Main.PlainLinkClasses | js/main.js:247-257 | a link whose id ends in neither "Desktop" nor "Icon" only gets "active" |
| Main.IconClasses | js/main.js:250-255 | an icon entry gets "active" and the icon class named after it |
| Main.AddActiveClasses | js/main.js:247-258 | every element keeps its classes, and gains the highlight classes of its id exactly when the current page lists it |
| Main.NavMenu.MenuActive | js/main.js:243-267 | the loop leaves every element with the classes the highlighting rule gives |
| Main.ProfileInitial | js/main.js:90-99 | "G" for a guest; otherwise the initials of the user whose e-mail is the decoded token; otherwise what was shown |
| Main.InitialOfResolvedUser | js/main.js:92-98 | the initials shown belong to the account whose id the other pages resolve |
| Main.NewUserFound | js/main.js:92 | an account added under an e-mail no other account has is the one found by that e-mail, with its new key as id |
| Main.NewAccountShowsItsInitials | js/main.js:90-99 | right after sign-up and login, the header shows the initials computed from the name |

## Left out

- The HTTP layer (`loadData`, `getData`, `putData`, `deleteData`, `postData`) is a server snapshot plus a log of the writes sent. Interleaving of overlapping requests is not modelled: each handler is one atomic step.
- Network failure is modelled only where a handler reacts to it: a boolean for `putData` in `toggleSubtask` and `saveEditTask`, and an absent reply in `checkEmailAvailability`. Elsewhere every request is taken to succeed.
- The failure of the user fetch in `login` is not modelled; that path only logs to the console.
- Markup, CSS classes and styles, animations, `setTimeout`, focus handling and navigation are not modelled. Only the decisions the renderers make are modelled.
- `toggleEditAssignedDropdown`, `handleClickOutsideEdit`, `handleClickOutside` (js/addTask.js:52-62) and `changeBgColorAssignedItem` only restyle or close dropdowns.
- BoardSupply.FillSelectedAssigned: a task whose `assigned` is undefined makes the selection undefined, and a later read of it throws. The model holds assignees as a sequence, so that case reads as no assignee.
- BoardAssistance.ToggleSubtask: the lookup of the task's progress bar element is not modelled. When the card is not on the board that lookup throws, and the replacement of the task that follows it is skipped. That replacement only puts the same flipped task back (`BoardAssistance.ReplaceUniqueIsNoop`).
- The progress bar's percentage is floating point. It is kept as the pair of completed and total counts.
- Date parsing and `toLocaleDateString` in `displayDeadline` are left out. The deadline takes a day-number function as a parameter. The hour of the greeting is a parameter.
- `localeCompare` is replaced by code-unit order of the names. `Math.random`'s colour choice is an index into the palette, given as a parameter.
- `btoa`/`atob` are an opaque encode/decode pair. They round-trip only where a lemma requires it.
- Case mapping covers Latin-1 (ß upper-cases to "SS"). Characters beyond Latin-1 map to themselves.
- `deleteTask` and `deleteContact` are left out. They only send a DELETE for one record and then refetch, and the refetch is modelled by `Storage.Store.RefreshTasks` and `Storage.Store.RefreshContacts`.
- `setSubtaskTrue` and `loginSuccess` are left out. No script calls them.
- `searchForTasksDesktop` is left out. It repeats `searchForTasks` on the desktop input.
- The re-fetches and redirects after a successful post are left out (contacts, sign-up, add task).
- ContactPage.SaveEditContact: the window width test and the presence of the contact's mobile view are boolean parameters. The display updates and the closing of the dialogs that go with them only change markup and are left out.
- The sign-up page's error styling, its password show/hide toggles and its button disabling are left out.
- Redefinitions of the same global function in other scripts (`getSelectedPriority`, `showError`, `createUser`) are left out. The script that loads last is not shown, so each file's own definition is modelled.
- `SignUp.GetInitials`: its contract only bounds the length. The exact initials are stated by `SignUp.InitialsOfFullName` for names of single-spaced words starting with ASCII letters, because upper-casing a non-ASCII letter can yield two characters.
- `ContactPage.ContactInitials`: its contract only bounds the text. The exact initials are stated by `ContactPage.InitialsOfWords` for names of single-spaced words.

## Findings

| source | as written | input that shows it | evidently intended | confidence | as-written member | corrected member |
|---|---|---|---|---|---|---|
| js/addTaskSubTask.js:214-219 | staged subtasks are plain strings without an `id`, and the list item has no `data-id`; the lookup therefore matches the first entry, and saving overwrites entry 0 | staged ["a","b"]; edit "b", then edit "a", then save the "b" item as "B": the list becomes ["B","b"] | the edited entry takes the typed text: ["a","B"] | not executed | AddTaskSubTask.SaveAfterTwoEditsHitsWrongEntry | AddTaskSubTask.RenamedCounts |
