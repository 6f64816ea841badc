# learn-loop core in Dafny

A model of the core of *learn-loop*, a spaced-repetition question bank: the
review scheduler, the study session (answer store, grading, feedback panel,
timer), the question manager (create and edit dialogs, option editors,
Markdown-table paste, batch operations, paginated list, sidebar) and the
server actions on questions, together with the data panel's heat map.

Each module follows one source file or component:

| module | file | follows |
|---|---|---|
| `Wrappers` | wrappers.dfy | `Option` and `Result` |
| `Domain` | domain.dfy | mastery levels, question types, options, content, questions |
| `Text` | text.dfy | the JavaScript string operations the core uses (`trim`, `split`, `join`, `includes`, `toString`, `padStart`, ASCII `toLowerCase`) |
| `Review` | review.dfy | `computeReview` |
| `QuestionStore` | question_store.dfy | the question store (`questionSlice`) |
| `StudyTimer` | study_timer.dfy | the timer store (`timeSlice`) and `useStudyTimer` |
| `OptionEdit` | option_edit.dfy | the single- and multiple-choice option editors |
| `QuestionActions` | question_actions.dfy | `createNewQuestionAction`, `updateQuestionAction`, `deleteQuestionsAction` |
| `QuestionForm` | question_form.dfy | the create and edit question dialogs |
| `PasteTable` | paste_table.dfy | the editor's Markdown-table paste handler |
| `TagEdit` | tag_edit.dfy | tag editing and submission in the group forms and the sidebar dialog |
| `Pagination` | pagination.dfy | the data table's pager and the paginated list queries |
| `Heatmap` | heatmap.dfy | the learning heat map |
| `Study` | study.dfy | the study page, the question details and the answer feedback |
| `Operation` | operation.dfy | the batch operations of the question manager |
| `Sidebar` | sidebar.dfy | the manager's sidebar: search, list and dialog flow |

Dates are milliseconds since the epoch (`int`); ids are strings; the
database is an abstract store of maps and sets whose constraint violations
become errors, so every action returns either the new store or an error.

## Model

| member | source | states |
|---|---|---|
| Review.ComputeReview | src/utils/computeReview.ts:4-53 | Rating Expertise completes the question and schedules it now; any other rating leaves it open and schedules it the rounded interval in days later |
| Review.CompletedIffExpertise | src/utils/computeReview.ts:25-30 | a question is completed exactly when it is rated Expertise |
| Review.IntervalBounds | src/utils/computeReview.ts:17-42 | the interval is between one and eight days |
| Review.ScheduledInFuture | src/utils/computeReview.ts:45-47 | a question that is not completed is due strictly after now |
| Review.IntervalTable | src/utils/computeReview.ts:17-42 | the interval for each rating and review count (Beginner 1 then 2, Intermediate 2 then 3, Proficiency 5 to 8) |
| Review.BeginnerNotDailyAfterFiveReviews | src/utils/computeReview.ts:33-42 | after five reviews even a Beginner rating waits two days, despite the "review every day" rule |
| Review.IntervalMonotoneInCount | src/utils/computeReview.ts:41-42 | more reviews never shorten the interval |
| Review.IntervalConstantFromFive | src/utils/computeReview.ts:41 | the multiplier is capped at 1.5, so from five reviews on the count no longer matters |
| Review.IntervalMonotoneInRating | src/utils/computeReview.ts:17-25 | a better rating never shortens the interval |
| Review.PriorMasteryIrrelevant | src/utils/computeReview.ts:32-38 | the previous mastery level does not change the schedule |
| Review.ScheduleExamples | src/utils/computeReview.ts:4-53 | worked schedules for concrete ratings, counts and dates |
| Domain.MasteryCodeRoundTrip | src/enum/question.enum.ts:1-6 | a stored mastery code reads back as the same level |
| Domain.TypeCodeRoundTrip | src/enum/question.enum.ts:8-12 | a stored question-type code reads back as the same type |
| QuestionStore.Init | src/stores/questionSlice.ts:13-15 | the store starts with no questions and no answers |
| QuestionStore.SetQuestions | src/stores/questionSlice.ts:17-18 | replaces the questions and keeps the answers |
| QuestionStore.GetQuestion | src/stores/questionSlice.ts:19-22 | finds a question with the id exactly when one exists |
| QuestionStore.SetUserAnswer | src/stores/questionSlice.ts:24-33 | replaces the first answer with the same id, or appends when there is none; other entries stay |
| QuestionStore.GetUserAnswer | src/stores/questionSlice.ts:35-38 | finds the recorded answer for the id exactly when one is recorded |
| QuestionStore.GetAfterSet | src/stores/questionSlice.ts:24-38 | reading right after recording gives the recorded answer |
| QuestionStore.OtherAnswersUnchanged | src/stores/questionSlice.ts:24-38 | recording an answer leaves the answers of other questions as they were |
| QuestionStore.SetKeepsIdsUnique | src/stores/questionSlice.ts:24-33 | recording keeps at most one entry per question |
| QuestionStore.SetIdempotent | src/stores/questionSlice.ts:24-33 | recording the same answer twice is the same as recording it once |
| StudyTimer.Init | src/stores/timeSlice.ts:12-14 | the timer starts at zero seconds, stopped |
| StudyTimer.SetTime | src/stores/timeSlice.ts:15 | sets the elapsed time and keeps the running flag |
| StudyTimer.SetIsPlaying | src/stores/timeSlice.ts:16-22 | a value sets the flag; a function is applied to the current flag |
| StudyTimer.Reset | src/stores/timeSlice.ts:23 | back to zero seconds, stopped |
| StudyTimer.MinutesTenths | src/stores/timeSlice.ts:24 | the minutes to one decimal are the seconds over sixty rounded to the nearest tenth, halves up |
| StudyTimer.Start | src/hooks/use-study-timer.ts:73-75 | the timer runs and the time is kept |
| StudyTimer.Pause | src/hooks/use-study-timer.ts:77-79 | the timer stops and the time is kept |
| StudyTimer.Toggle | src/hooks/use-study-timer.ts:86-88 | the running flag flips and the time is kept |
| StudyTimer.ToggleInvolutive | src/hooks/use-study-timer.ts:86-88 | toggling twice gives the same state |
| StudyTimer.UpdateAgreesWithValue | src/stores/timeSlice.ts:16-22 | the function form agrees with the value form on the current flag |
| StudyTimer.ControlsKeepTime | src/hooks/use-study-timer.ts:73-88 | reset is idempotent, start, pause and toggle never move the clock, and pausing after starting is pausing |
| StudyTimer.ClockParts | src/hooks/use-study-timer.ts:49-51 | hours, minutes of the hour and seconds of the minute add back up to the elapsed seconds |
| StudyTimer.FormatTime | src/hooks/use-study-timer.ts:48-58 | minutes and seconds have exactly two digits and hours at least two, all decimal digits |
| StudyTimer.FormatTimeValue | src/hooks/use-study-timer.ts:48-58 | the three fields read back as numbers give the elapsed seconds, with minutes and seconds below sixty |
| StudyTimer.FormatExamples | src/hooks/use-study-timer.ts:48-58 | 3725 seconds show as 01, 02, 05 |
| StudyTimer.FormatLongExample | src/hooks/use-study-timer.ts:54 | a hundred hours show as 100: hours are not cut to two digits |
| StudyTimer.ReadableParts | src/hooks/use-study-timer.ts:65-68 | the parts come largest unit first; hours and minutes appear exactly when non-zero, seconds when non-zero or when nothing else appears |
| StudyTimer.PartsTotal | src/hooks/use-study-timer.ts:61-68 | the parts stand for the elapsed seconds |
| StudyTimer.ReadableRoundTrip | src/hooks/use-study-timer.ts:60-71 | the readable text reads back as the elapsed seconds, so it loses nothing |
| StudyTimer.ReadableZeroExample | src/hooks/use-study-timer.ts:68 | no time shows as "0秒" |
| StudyTimer.ReadableHourExample | src/hooks/use-study-timer.ts:66-68 | one whole hour shows as "1小时" alone |
| StudyTimer.ReadableFullExample | src/hooks/use-study-timer.ts:60-71 | 3725 seconds show as "1小时2分钟5秒" |
| OptionEdit.LetterInjective | src/components/Manage/components/single-edit.tsx:61-63 | different positions get different letters |
| OptionEdit.AddOption | src/components/Manage/components/single-edit.tsx:53-65 | refuses with the eight-option warning exactly at eight options; otherwise appends the letter of the new position with empty text and keeps the rest |
| OptionEdit.RemoveAt | src/components/Manage/components/single-edit.tsx:69 | drops the option at the index and keeps the others in order |
| OptionEdit.ChangeLabel | src/components/Manage/components/single-edit.tsx:76-80 | only the option at the index gets the new text; the letters stay |
| OptionEdit.SingleInit | src/components/Manage/components/single-edit.tsx:18-24 | starts from A, B, C with A correct, a valid editor |
| OptionEdit.SingleAdd | src/components/Manage/components/single-edit.tsx:53-65 | fails with the too-many-options warning exactly at eight options; otherwise keeps every option in place, appends the letter of the new position with empty text, and keeps the correct letter |
| OptionEdit.SingleRemove | src/components/Manage/components/single-edit.tsx:67-74 | ignored at two options; otherwise drops the option, and when it held the correct letter the new first option becomes correct |
| OptionEdit.SingleChange | src/components/Manage/components/single-edit.tsx:76-80 | only the option at the index gets the new text; every other option, all letters and the correct letter stay |
| OptionEdit.SingleGetContent | src/components/Manage/components/single-edit.tsx:30-35 | the content is the options and the one correct letter |
| OptionEdit.SingleSetContent | src/components/Manage/components/single-edit.tsx:36-49 | takes given options, and the first letter of a non-empty letter list; keeps what is missing |
| OptionEdit.SingleContentRoundTrip | src/components/Manage/components/single-edit.tsx:30-49 | loading the editor's own content into any editor gives the same editor |
| OptionEdit.SingleEditsKeepValid | src/components/Manage/components/single-edit.tsx:53-80 | adding, removing and relabelling keep two to eight options and a correct letter that names one of them |
| OptionEdit.MultipleInit | src/components/Manage/components/multipleEdit.tsx:17-24 | starts from A, B, C with nothing marked |
| OptionEdit.MultipleAdd | src/components/Manage/components/multipleEdit.tsx:50-62 | fails with the too-many-options warning exactly at eight options; otherwise keeps every option in place, appends the letter of the new position with empty text, and keeps the marks |
| OptionEdit.MultipleRemove | src/components/Manage/components/multipleEdit.tsx:64-71 | ignored at two options; otherwise drops the option, unmarks its letter and leaves the mark of every other letter as it was |
| OptionEdit.MultipleChange | src/components/Manage/components/multipleEdit.tsx:73-77 | only the option at the index gets the new text; every other option, all letters and the marks stay |
| OptionEdit.ToggleCorrect | src/components/Manage/components/multipleEdit.tsx:79-88 | the letter is marked exactly when checked; other marks stay |
| OptionEdit.MarkedIndices | src/components/Manage/components/multipleEdit.tsx:33-35 | the positions of the marked options: strictly increasing, each one marked, and every marked position present |
| OptionEdit.MarkedLetters | src/components/Manage/components/multipleEdit.tsx:33-35 | one letter per marked option, in option order and with repeats kept, so exactly the letters both marked and among the options |
| OptionEdit.MultipleGetContent | src/components/Manage/components/multipleEdit.tsx:30-37 | keeps the options; the content's letters are the marked options' letters in option order, one per marked option |
| OptionEdit.MultipleSetContent | src/components/Manage/components/multipleEdit.tsx:38-46 | takes given options and any letter list, even an empty one |
| OptionEdit.ToggleOnOff | src/components/Manage/components/multipleEdit.tsx:79-88 | checking then unchecking a letter removes every mark of it |
| OptionEdit.MultipleContentRoundTrip | src/components/Manage/components/multipleEdit.tsx:30-46 | loading the editor's content and reading it again gives the same content |
| OptionEdit.MarkedIdempotent | src/components/Manage/components/multipleEdit.tsx:33-35 | filtering the marks by the options twice is filtering once |
| OptionEdit.MarkedSame | src/components/Manage/components/multipleEdit.tsx:33-35 | mark lists that agree on the option letters give the same content |
| OptionEdit.MultipleEditsKeepCount | src/components/Manage/components/multipleEdit.tsx:50-77 | adding, removing and relabelling keep two to eight options |
| OptionEdit.AddAfterRemoveRepeatsLetter | src/components/Manage/components/single-edit.tsx:53-74 | from A, B, C, removing B and adding gives A, C, C: new letters come from the count |
| OptionEdit.PositionalDistinct | src/components/Manage/components/single-edit.tsx:61-63 | letters given by position are distinct |
| OptionEdit.AddKeepsPositional | src/components/Manage/components/single-edit.tsx:18-22 | the initial options, additions and relabelling keep letters by position |
| OptionEdit.AddDistinctIff | src/components/Manage/components/single-edit.tsx:53-65 | an addition keeps letters distinct exactly when the positional letter is not taken |
| OptionEdit.RemoveKeepsDistinct | src/components/Manage/components/single-edit.tsx:67-70 | removing keeps the letters distinct |
| QuestionActions.TargetFolder | src/actions/question.ts:79-92 | a non-empty folder id is used as given; otherwise a new "未分类" folder is created, which fails when that name is taken |
| QuestionActions.CreateQuestion | src/actions/question.ts:74-119 | on success the new row holds the request's fields, review state, time and user, and no other question, link or group changes; a given folder must exist and is used as it is; without one, an "Unclassified" folder is made for the user, and that succeeds exactly when the name is free and the fresh ids are unused |
| QuestionActions.ApplyFields | src/actions/question.ts:343-363 | every given field is written, every missing one kept, and the update time is always stamped |
| QuestionActions.Links | src/database/schema.ts:208-225 | the links of a question are exactly its pairs with the listed groups |
| QuestionActions.ReplaceLinks | src/actions/question.ts:372-386 | succeeds exactly when the groups are distinct and known; then the question's links are exactly the listed groups and other links stay |
| QuestionActions.UpdateQuestion | src/actions/question.ts:337-394 | succeeds exactly when the caller's new folder exists and a non-empty group list names distinct existing groups of an existing question; writes the fields to the caller's own row only; replaces the links only for a non-empty group list, to exactly that list, and never touches another question's links |
| QuestionActions.DeleteQuestions | src/actions/question.ts:401-407 | removes exactly the listed questions, of any user, with their links; the rest stays |
| QuestionActions.ActionsKeepConsistent | src/actions/question.ts:74-407 | creating, updating and deleting keep every question in an existing folder and every link between existing rows |
| QuestionActions.UpdateLeavesOthersRows | src/actions/question.ts:368 | another user's row is left alone |
| QuestionActions.EmptyUpdateOnlyStamps | src/actions/question.ts:343-363 | an update with only an id changes only the update time |
| QuestionActions.EmptyTargetKeepsLinks | src/actions/question.ts:372 | as written: an empty group list leaves the question's links in place |
| QuestionActions.UpdateQuestionFixed | src/actions/question.ts:337-394 | corrected: the same success condition; any given group list, empty included, becomes the question's set of groups, and no other question's links change |
| QuestionActions.FixedEmptyTargetClearsLinks | src/actions/question.ts:372-386 | corrected: an empty list leaves the question in no group, and otherwise the two versions agree |
| QuestionForm.ContentProblem | src/components/Manage/components/Operations/create-new-question.tsx:93-109 | no warning exactly for valid content; the blank-option warning exactly when an option has no text, checked first |
| QuestionForm.HandleCreate | src/components/Manage/components/Operations/create-new-question.tsx:111-180 | an empty title is refused first; a request is sent exactly when the selected kind's checks pass, carrying the initial review state and the chosen folder |
| QuestionForm.HandleUpdate | src/components/Manage/components/edit-question.tsx:149-218 | the same checks, stricter for text questions (the description must be present); the request never carries review state or group links |
| QuestionForm.EditNeedsDescription | src/components/Manage/components/edit-question.tsx:201 | a text question without description Markdown is accepted on creation and refused on edit |
| QuestionForm.EditKeepsSchedule | src/components/Manage/components/edit-question.tsx:149-218 | an edit sent through the update action keeps mastery, review count and due date |
| QuestionForm.CreatedQuestionIsNew | src/components/Manage/components/Operations/create-new-question.tsx:112-117 | a created question is stored as Beginner, never reviewed, due now |
| QuestionForm.SingleEditorContent | src/components/Manage/components/Operations/create-new-question.tsx:93-109 | single-choice content is refused only for an option without text |
| QuestionForm.MultipleEditorContent | src/components/Manage/components/Operations/create-new-question.tsx:93-109 | multiple-choice content is refused when an option has no text or nothing is marked |
| QuestionForm.PrefillText | src/components/Manage/components/edit-question.tsx:68-85 | the edit dialog shows the description (or nothing) and the stored text answer (nothing for a letter list) |
| QuestionForm.TextAnswerRoundTrip | src/components/Manage/components/edit-question.tsx:74-83 | a text question saved by the create dialog opens in the edit dialog with the same answer |
| PasteTable.TrimNonBlank | src/components/QuestionEditor/plugins.ts:44-47 | keeps at most as many pieces as it is given, each trimmed, non-empty and free of the separator |
| PasteTable.Lines | src/components/QuestionEditor/plugins.ts:43-47 | every clipboard line kept is trimmed, non-empty and without a line feed |
| PasteTable.Cells | src/components/QuestionEditor/plugins.ts:56-60 | every cell kept is trimmed, non-empty and without a pipe |
| PasteTable.DropSeparators | src/components/QuestionEditor/plugins.ts:54 | the lines kept are lines of the input that are not separator lines |
| PasteTable.TableData | src/components/QuestionEditor/plugins.ts:53-60 | every cell of the parsed table is trimmed, non-empty and without a pipe |
| PasteTable.BuildRows | src/components/QuestionEditor/plugins.ts:67-85 | a row is made only from a line with cells, and only the very first parsed line can make the header row |
| PasteTable.HandlePaste | src/components/QuestionEditor/plugins.ts:38-96 | no clipboard data, or no line with a pipe, is left to the editor; an inserted table has at least one row, no empty row, a header only in first place and clean cells |
| PasteTable.AlignmentRowIsData | src/components/QuestionEditor/plugins.ts:54 | a line of dashes between pipes is a separator line, but an alignment line with a colon is kept as data |
| PasteTable.NoHeaderWhenFirstLineEmpty | src/components/QuestionEditor/plugins.ts:67-85 | when the first parsed line has no cells the table has no header row at all |
| PasteTable.KeptPiece | src/components/QuestionEditor/plugins.ts:44-47 | a part yields one piece exactly when it is not all white space |
| PasteTable.TrimNonBlankAppend | src/components/QuestionEditor/plugins.ts:44-47 | parsing two runs of parts one after the other gives the pieces of the first run followed by those of the second |
| PasteTable.TrimNonBlankAt | src/components/QuestionEditor/plugins.ts:44-47 | every part is kept in its place, trimmed unless blank: the parts before it parse before it and the parts after it after it |
| PasteTable.LinesAppend | src/components/QuestionEditor/plugins.ts:43-47 | the lines of two texts joined by a line feed are the lines of the first followed by those of the second |
| PasteTable.LinesOfOneLine | src/components/QuestionEditor/plugins.ts:43-47 | a text without a line feed is one line, kept trimmed or dropped when blank |
| PasteTable.CellsAppend | src/components/QuestionEditor/plugins.ts:56-60 | the cells of two pieces joined by a pipe are the cells of the first followed by those of the second |
| PasteTable.CellsOfOneCell | src/components/QuestionEditor/plugins.ts:56-60 | a piece without a pipe is one cell, kept trimmed or dropped when blank |
| PasteTable.KeptLine | src/components/QuestionEditor/plugins.ts:54 | a line is kept exactly when it is not a separator line |
| PasteTable.DropSeparatorsAppend | src/components/QuestionEditor/plugins.ts:54 | dropping separators from two runs of lines keeps the first run's lines before the second's |
| PasteTable.DropSeparatorsAt | src/components/QuestionEditor/plugins.ts:54 | every line that is not a separator stays in its place; a separator line is dropped and nothing else with it |
| PasteTable.TableDataAppend | src/components/QuestionEditor/plugins.ts:53-60 | parsing two runs of lines gives the first run's cell lists before the second's |
| PasteTable.TableDataAt | src/components/QuestionEditor/plugins.ts:53-60 | every line that is not a separator yields its cells, possibly none, in its place; a separator line yields nothing |
| PasteTable.BuildRowsAppend | src/components/QuestionEditor/plugins.ts:67-85 | the rows of two runs of parsed lines are the first run's rows followed by the second's, counted from where the second run starts |
| PasteTable.BuildRowsAt | src/components/QuestionEditor/plugins.ts:67-85 | every parsed line with cells makes a row in its place, a header row exactly when it is the very first parsed line; a line without cells makes none |
| PasteTable.BuildRowsEmptyIff | src/components/QuestionEditor/plugins.ts:67-85 | rows are made exactly when some parsed line has cells |
| PasteTable.BuildRowsHas | src/components/QuestionEditor/plugins.ts:67-85 | every parsed line with cells has its row among the rows built, and a first line with cells makes the first row |
| PasteTable.HandlePasteInserts | src/components/QuestionEditor/plugins.ts:38-96 | a table is inserted exactly when there is clipboard text, some line has a pipe and some parsed line has cells; it then holds a row for every parsed line with cells, headed by the first line when that has cells |
| Text.SplitAppend | src/components/QuestionEditor/plugins.ts:43-44 | splitting a text at a separator gives the pieces before it followed by the pieces after it |
| PasteTable.CellsOfRenderedRow | src/components/QuestionEditor/plugins.ts:56-60 | a row written with a pipe before, between and after its cells is cut back into exactly its cells |
| PasteTable.LinesOfRenderedTable | src/components/QuestionEditor/plugins.ts:43-47 | a rendered table is cut back into exactly its rendered lines |
| PasteTable.KeptOfRenderedTable | src/components/QuestionEditor/plugins.ts:53-54 | of a rendered table only the separator under the header is dropped |
| PasteTable.DataOfRenderedTable | src/components/QuestionEditor/plugins.ts:53-60 | a rendered table parses back into its header and body cells |
| PasteTable.BuildBodyRows | src/components/QuestionEditor/plugins.ts:67-85 | lines after the first with cells all become body rows |
| PasteTable.DropBodySeparators | src/components/QuestionEditor/plugins.ts:54 | a rendered body row is never taken for a separator line |
| PasteTable.PasteRenderedTable | src/components/QuestionEditor/plugins.ts:38-96 | a table written in the usual Markdown form pastes as exactly its header row followed by its body rows |
| TagEdit.GroupAddTag | src/components/Group/components/group-form.tsx:90-115 | a blank input is ignored; five tags warn "too many" and a present tag warns "duplicate", keeping the input; the tag list changes exactly when the trimmed tag is new and fewer than five are held, and then it is appended and the input cleared |
| TagEdit.RemoveTag | src/components/Group/components/group-form.tsx:117-123 | the tag is gone, every other tag is kept and the input is untouched |
| TagEdit.GroupEditsKeepValid | src/components/Group/components/CreateNewGroup.tsx:78-111 | adding and removing keep at most five tags, each trimmed and non-empty, with no two equal |
| TagEdit.WithoutKeepsValid | src/components/Group/components/group-form.tsx:117-123 | removing a tag from a valid list leaves a valid list |
| TagEdit.AddThenRemove | src/components/Group/components/group-form.tsx:90-123 | adding a tag and then removing it gives back the list before |
| TagEdit.AddTwiceRefused | src/components/Group/components/group-form.tsx:104-111 | typing the same tag again is refused as a duplicate |
| TagEdit.SchemaErrors | src/components/Group/components/group-form.tsx:30-34 | the name and the description are rejected exactly when empty, the tags exactly when more than five |
| TagEdit.TrimAll | src/components/Group/components/group-form.tsx:86 | the same number of tags, each trimmed |
| TagEdit.SubmitGroup | src/components/Group/components/group-form.tsx:83-88 | values the schema rejects are refused with the rejected fields; accepted values are sent with every tag trimmed and the rest as given |
| TagEdit.SubmitValidTagsUnchanged | src/components/Group/components/CreateNewGroup.tsx:71-76 | tags built by the dialog are sent exactly as shown |
| TagEdit.SidebarKeyDown | src/components/Manage/components/Sidebar/SidebarDialog.tsx:73-81 | Enter with a non-blank input appends the trimmed tag when it is new and clears the input either way; anything else changes nothing |
| TagEdit.SidebarHasNoCap | src/components/Manage/components/Sidebar/SidebarDialog.tsx:73-81 | the sidebar takes a sixth tag that the group dialogs refuse |
| TagEdit.SidebarKeepsTagsClean | src/components/Manage/components/Sidebar/SidebarDialog.tsx:73-81 | keys keep the sidebar's tags trimmed, non-empty and distinct |
| TagEdit.SyncItem | src/components/Manage/components/Sidebar/SidebarDialog.tsx:49-63 | no item empties name, description and tags; a folder item sets only the name; a group item sets all three, a missing description read as empty |
| TagEdit.SidebarSubmit | src/components/Manage/components/Sidebar/SidebarDialog.tsx:65-71 | a folder sends only its name, a group its name, description and tags |
| TagEdit.EditGroupRoundTrip | src/components/Manage/components/Sidebar/SidebarDialog.tsx:49-71 | opening the dialog on a group and submitting it sends the group back unchanged |
| Pagination.PageSizesPositive | src/components/Manage/components/data-table.tsx:266 | the offered page sizes are 10 to 50, all positive |
| Pagination.TotalPages | src/components/Manage/components/data-table.tsx:71 | the fewest pages of the page size that hold all rows, zero exactly for no rows |
| Pagination.Previous | src/components/Manage/components/data-table.tsx:281-288 | goes back one page only past the first page, and otherwise does nothing |
| Pagination.Next | src/components/Manage/components/data-table.tsx:289-296 | goes forward one page only while pages remain, and otherwise does nothing |
| Pagination.ChangePageSize | src/components/Manage/components/data-table.tsx:75-78 | a new size returns to the first page |
| Pagination.NavigationStaysInRange | src/components/Manage/components/data-table.tsx:71-73 | from a page between one and the page count, either button stays in that range |
| Pagination.NextThenPrevious | src/components/Manage/components/data-table.tsx:281-296 | next then previous returns to the starting page |
| Pagination.ListPage | src/actions/question.ts:155-193 | at most a page of rows, each the row at the page's offset plus its position, and short only at the end of the rows |
| Pagination.PageNonEmptyIff | src/actions/question.ts:155-193 | a page has rows exactly when its number is at most the page count |
| Pagination.CanNextIffRows | src/components/Manage/components/data-table.tsx:73 | the next button is enabled exactly when the next page has rows |
| Pagination.PagesPrefix | src/actions/question.ts:267-305 | the first k pages laid end to end are the first k page-sizes of rows |
| Pagination.PagesPartitionRows | src/actions/question.ts:267-305 | walking every page returns each row once, in order |
| Heatmap.ShadeOf | src/components/DataPanel/heatmap.tsx:127-133 | zero is muted; up to 5, 10 and 15 give the three lighter shades; more gives the full colour |
| Heatmap.ShadeMonotone | src/components/DataPanel/heatmap.tsx:127-133 | a larger count never gives a lighter cell |
| Heatmap.TotalWeeks | src/components/DataPanel/heatmap.tsx:136 | the fewest seven-day columns that hold every day |
| Heatmap.Cell | src/components/DataPanel/heatmap.tsx:220-231 | the cell at column w, row d holds day 7w+d, and is empty past the last day |
| Heatmap.Grid | src/components/DataPanel/heatmap.tsx:214-231 | one column per week, seven cells each, every cell as above |
| Heatmap.EveryDayShown | src/components/DataPanel/heatmap.tsx:214-231 | every day appears in the grid, at column i/7 and row i%7 |
| Heatmap.CellsDistinct | src/components/DataPanel/heatmap.tsx:221 | two different cells never hold the same day |
| Heatmap.LabelFor | src/components/DataPanel/heatmap.tsx:79-82 | a label reads "M月" for the day's month and sits over the day's column |
| Heatmap.MonthStarts | src/components/DataPanel/heatmap.tsx:68-87 | there are at most as many labels as days, at least one for a non-empty year, each over a column already reached |
| Heatmap.MonthLabels | src/components/DataPanel/heatmap.tsx:68-87 | the scan emits exactly one label per day that starts a new month, in day order |
| Heatmap.LabelsOrdered | src/components/DataPanel/heatmap.tsx:76-84 | label columns never go backwards |
| Heatmap.LabelsInGrid | src/components/DataPanel/heatmap.tsx:76-84 | every label sits over a column of the grid |
| Heatmap.CountMap | src/components/DataPanel/heatmap.tsx:110-115 | the map has an entry exactly for the days some record was written on |
| Heatmap.LastCount | src/components/DataPanel/heatmap.tsx:110-115 | the total of the last record for a day, and nothing when no record matches |
| Heatmap.CountMapIsLast | src/components/DataPanel/heatmap.tsx:110-115 | the map holds, for each day, the total of the record that came last |
| Heatmap.DayCounts | src/components/DataPanel/heatmap.tsx:90-124 | one count per day; all zero while loading or without data |
| Heatmap.DayCountIsLastRecord | src/components/DataPanel/heatmap.tsx:117-121 | each day's count is the total of the last record for that day, and 0 when there is none |
| Heatmap.LaterRecordWins | src/components/DataPanel/heatmap.tsx:110-115 | a later record for the same day replaces an earlier one |
| Study.SubmitAnswer | src/components/Study/index.tsx:58-90 | nothing happens without a question or a truthy answer key; a missing or empty-string answer asks for an answer first, exactly then; with a stored answer, a text question sends it to the chat, a letter key is graded right exactly when every key letter is included in the answer, and a text key on a choice question fails |
| Study.Returned | src/components/Study/index.tsx:58-90 | a value is returned exactly for a graded or a chat submission, and a chat submission returns false |
| Study.GradedIffCovers | src/components/Study/index.tsx:72-78 | a selection is right exactly when it contains every correct option; extra selections cost nothing |
| Study.ExtraSelectionsKeepCorrect | src/components/Study/index.tsx:76-78 | adding selections to a right answer keeps it right |
| Study.TextNeverCorrect | src/components/Study/index.tsx:79-89 | the page never itself marks a text answer right |
| Study.EmptySelectionIsGraded | src/components/Study/index.tsx:65-78 | an empty selection is graded, not refused, and is right only against an empty key |
| Study.SelectSingle | src/components/Study/components/details.tsx:55-58 | the question's answer becomes the one chosen value; other answers stay |
| Study.LoadSingle | src/components/Study/components/details.tsx:50-53 | with nothing truthy stored the radio group keeps its value; a stored list shows its first element (nothing for an empty list) and a stored string only its first character |
| Study.SingleSelectionReloads | src/components/Study/components/details.tsx:50-58 | coming back to a single-choice question shows the value chosen |
| Study.ToggleAnswer | src/components/Study/components/details.tsx:92-95 | the value is selected afterwards exactly when it was not before; other values keep their state; a new value goes last |
| Study.ToggleTwice | src/components/Study/components/details.tsx:92-95 | toggling an unselected value twice gives the same list; toggling a selected one twice moves it to the end |
| Study.ToggleMultiple | src/components/Study/components/details.tsx:92-99 | the toggled list is recorded as the question's answer |
| Study.ChangeText | src/components/Study/components/details.tsx:128-131 | the typed text is recorded as the question's answer |
| Study.PreviousQuestion | src/components/Study/components/details.tsx:204-210 | moves back one question unless loading or on the first |
| Study.NextQuestion | src/components/Study/components/details.tsx:211-219 | moves forward one question unless loading or on the last |
| Study.NavigationInBounds | src/components/Study/components/details.tsx:204-219 | from a question of the list, either button stays on a question of the list |
| Study.NextEnabledOnEmptyList | src/components/Study/components/details.tsx:213-216 | with no questions the next button is enabled and moves past the list |
| Study.FormatAnswer | src/components/Study/components/answer-feedback.tsx:53-59 | a missing answer or empty string reads "未作答", an empty list reads as nothing, a string as itself, a one-element list as its element |
| Study.KeyAsAnswer | src/components/Study/components/answer-feedback.tsx:125-130 | the key is shown as a letter list or as text, and as missing without content |
| Study.FormatLetters | src/components/Study/components/answer-feedback.tsx:53-59 | single letters come out as "A, B, …": letter i at position 3i, followed by a comma and a space unless last |
| Study.OpenFeedback | src/components/Study/components/answer-feedback.tsx:37-41 | the panel starts at the question's mastery and offers the picker exactly when the question is not completed |
| Study.ChangeMastery | src/components/Study/components/answer-feedback.tsx:43-51 | the choice is recorded at once; the picker hides when the update succeeds and otherwise stays as it was |
| Study.PickerHidesOnlyOnSuccess | src/components/Study/components/answer-feedback.tsx:43-51 | a shown picker stays on screen exactly when the update fails |
| Study.NextEnabledAtOpen | src/components/Study/components/answer-feedback.tsx:98 | since a question always has a mastery level, the next button is enabled as soon as the panel opens |
| Operation.TargetFolderId | src/components/Manage/operation.tsx:60-61 | the selected folder in folder mode, the unclassified folder in group mode |
| Operation.SelectedIndices | src/components/Manage/operation.tsx:174-176 | exactly the selected indices below the row count, strictly ascending |
| Operation.SelectedQuestions | src/components/Manage/operation.tsx:174-176 | the rows at those indices, in index order |
| Operation.EachSelectedRowOnce | src/components/Manage/operation.tsx:174-176 | every selected row is sent exactly once |
| Operation.RemoveGroupIds | src/components/Manage/operation.tsx:190-192 | the question's groups without the current one, none other lost |
| Operation.AddGroupIds | src/components/Manage/operation.tsx:274-287 | the question's other groups and then the target once, last |
| Operation.AddToPresentGroupKeepsCount | src/components/Manage/operation.tsx:274-287 | re-adding a group the question is already in sends as many ids as it has groups |
| Operation.ContentOrEmpty | src/components/Manage/operation.tsx:197 | the question's content, or empty options and an empty key |
| Operation.BatchRequest | src/components/Manage/operation.tsx:194-201 | each request carries the question's id, title, type and content, drops an empty description, carries the given groups and folder, and never carries review state |
| Operation.BatchDelete | src/components/Manage/operation.tsx:178-214 | nothing selected only warns; in group mode with a group chosen each selected question, in order, leaves that group; the questions are deleted exactly in folder mode or with no group chosen |
| Operation.AddToGroup | src/components/Manage/operation.tsx:272-289 | one request per selected question, in order, joining the group |
| Operation.MoveToFolder | src/components/Manage/operation.tsx:318-331 | one request per selected question, in order, moving it with its groups kept |
| Operation.GroupModeNeverDeletes | src/components/Manage/operation.tsx:187-213 | with a group chosen the button never deletes questions |
| Operation.BatchKeepsReviewState | src/components/Manage/operation.tsx:194-201 | no batch request changes a question's mastery, review count or due date |
| Operation.AddToGroupLinks | src/components/Manage/operation.tsx:272-289 | once accepted, the question is in exactly its shown groups and the new one |
| Operation.RemoveFromGroupLinks | src/components/Manage/operation.tsx:189-202 | once accepted, a question with other groups leaves the current group and keeps the others |
| Operation.RemoveLastGroupKeepsLink | src/components/Manage/operation.tsx:190-200 | as written: a question whose only group is the current one stays in it |
| Operation.RemoveLastGroupFixed | src/components/Manage/operation.tsx:190-200 | corrected: that question leaves the group |
| Sidebar.FilterItems | src/components/Manage/sidebar.tsx:206-208 | exactly the items whose lower-cased name contains the lower-cased search |
| Sidebar.FilterConcat | src/components/Manage/sidebar.tsx:206-208 | the filter keeps list order |
| Sidebar.EmptySearchKeepsAll | src/components/Manage/sidebar.tsx:206-208 | an empty search keeps every item |
| Sidebar.ListArea | src/components/Manage/sidebar.tsx:226-297 | placeholders while loading; the empty-state message exactly when nothing matches; otherwise the whole list, unfiltered |
| Sidebar.SearchOnlyTogglesEmptyState | src/components/Manage/sidebar.tsx:238-297 | once any item matches, every item is listed, matching or not |
| Sidebar.SubmitCall | src/components/Manage/sidebar.tsx:83-169 | creation calls the tab's create action with the form; editing and deleting call the tab's action on the dialog's item, and nothing without one |
| Sidebar.SubmitEffect | src/components/Manage/sidebar.tsx:83-181 | without a target or on an exception the state stays; otherwise the dialog closes; a selection is cleared only by a successful delete on its tab |
| Sidebar.DeleteClearsSelection | src/components/Manage/sidebar.tsx:141-168 | after a successful delete the selection is empty exactly when it named the deleted item or was empty already, and the dialog is closed |
| Sidebar.CloseIffHandled | src/components/Manage/sidebar.tsx:171-180 | the dialog closes exactly when the call did not throw |
| Sidebar.CloseDialog | src/components/Manage/sidebar.tsx:77-81 | a request to close closes; a request to open is ignored |

The batch operations' requests go through `QuestionActions.UpdateQuestion`,
so their effect on the links is stated against the server action; the row
menu's "move to group" (src/components/Manage/operation.tsx:218-227) sends
the same request as `Operation.BatchRequest` with the chosen groups.

## Left out

- Rendering, styling, toasts and console output: a toast is modelled as the warning or error value the operation returns, or not at all when it only reports success.
- React state plumbing: effects, query caching and refetching, and the `handleCreate`, `handleEdit` and `handleDelete` openers of the sidebar dialog, which only build the dialog configuration that `Sidebar.SubmitCall` and `Sidebar.SubmitEffect` take as input.
- The network and the database engine: server actions work on an abstract store of maps and sets; authentication is reduced to a user id parameter, and the request's time is a parameter `now`.
- Calendar arithmetic (date-fns, `new Date()`): the heat map's days are given as a sequence of days with their formatted key, year and month; the clock is a parameter.
- The timer library behind `useStudyTimer` (its tick and callbacks): the elapsed seconds are a parameter.
- The chat panel and the prompts built for it: `Study.SubmitAnswer` ends in `SentToChat` with the answer it would hand over.
- TipTap node creation in the paste handler: rows are modelled as header or body cell lists; `createAndFill` is taken never to fail.
- `toLowerCase` and `trim`: lower-casing is modelled for ASCII letters only; trimming uses the ECMAScript white-space and line-terminator characters.
- Characters versus UTF-16 code units: a Dafny `char` stands for one JavaScript string element, so indexing such as `Study.LoadSingle`'s first-character read matches the source only for text in the Basic Multilingual Plane; surrogate pairs are not modelled.
- QuestionActions.ReplaceLinks: a group link is a (question, group) pair; the link's completion flag (src/database/schema.ts:217) is not modelled. Because the source deletes a question's links and inserts them again (src/actions/question.ts:372-386), every kept link gets the flag's default `false`. So `QuestionActions.UpdateQuestion` resets completion in the groups the question stays in, for example when the question is added to one more group, and the model does not show that reset.
- QuestionStore.SetUserAnswer: the reducer overwrites the entry inside the stored array in place (src/stores/questionSlice.ts:24-33). The model returns a new store value, so aliasing with an array the caller still holds is not modelled.
- OptionEdit.ChangeLabel: `OptionEdit.SingleChange` and `OptionEdit.MultipleChange` also use it. The editors set the caption on the option object itself, which the previous options list shares (src/components/Manage/components/single-edit.tsx:76-80, src/components/Manage/components/multipleEdit.tsx:73-77). The model builds a new list, so effects through that sharing are not modelled.
- PasteTable.TrimNonBlank, PasteTable.Lines, PasteTable.Cells, PasteTable.DropSeparators, PasteTable.TableData, PasteTable.BuildRows, PasteTable.HandlePaste: their own contracts state only the shape of what they keep. Which inputs are kept, and in what order, is stated by `PasteTable.TrimNonBlankAt`, `PasteTable.LinesAppend`, `PasteTable.LinesOfOneLine`, `PasteTable.CellsAppend`, `PasteTable.CellsOfOneCell`, `PasteTable.DropSeparatorsAt`, `PasteTable.TableDataAt`, `PasteTable.BuildRowsAt` and `PasteTable.HandlePasteInserts`. Those facts are kept out of the functions' contracts because the round-trip proofs over the same functions would carry them in every step.
- StudyTimer.MinutesTenths: `getMinutes` formats the floating-point quotient `time / 60` with `toFixed(1)`; the model counts tenths of a minute and rounds every half up, while for a time that is an odd multiple of three seconds the nearest double may fall just below the half and be rounded down (9 seconds read as 0.1 minutes, not 0.2). Floating-point rounding is not modelled.
- Pagination.TotalPages: the page size is required to be positive; the source would divide by zero and get `Infinity` for a zero size, which the size picker never offers.
- Pagination.ListPage: the page is required to be at least one, as every caller passes; the database's handling of a negative offset is not modelled.
- Operation.SelectedQuestions: the selection is required to hold only indices of shown rows; the source would read `undefined` for any other index and fail.
- Study.LoadSingle: only the single-choice input's reload is modelled; the multiple-choice and text inputs reload their stored answer with the same effect pattern.
- StudyTimer.ReadableRoundTrip: the reader that turns the readable text back into seconds is a definition of the model; the source has no such reader.
- Group and folder server actions called from the sidebar (create, update, delete) are modelled only as the call made and whether it succeeded, threw or reported failure.

## Findings

| source | as written | input that shows it | evidently intended | confidence | as-written member | corrected member |
|---|---|---|---|---|---|---|
| src/actions/question.ts:372 | the group links are replaced only when `targetGroups` is a non-empty list, so an empty list changes nothing | in group mode, remove a question whose only group is the selected one: the request carries `targetGroups: []`, the success toast shows, and the question stays in the group | an empty list leaves the question in no group | not executed | QuestionActions.EmptyTargetKeepsLinks | QuestionActions.FixedEmptyTargetClearsLinks |
