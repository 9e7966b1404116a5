# PuzzleLab crossword core in Dafny

PuzzleLab is a web application for building and solving crosswords. A Next.js client hosts the
creation page, the solving page and the account forms; a Java (Quarkus/Panache) server stores
accounts and puzzles. This project models the logic at the centre of both, in Dafny:

- **The creation page** (`Editor`, built on `Grid`, `Navigation`, `Validation`, `Connectivity`,
  `Trim`, `Numbering`, `Hints`):
  - the editing grid and its row and column buttons;
  - the block toggle;
  - the cursor and typing-direction state machine (letters, Backspace, Delete, the arrows, Enter);
  - the hint stage:
    - the empty-grid check;
    - the single trimming pass;
    - the short-word, connectivity and unused-cell checks;
    - the numbering of word starts and the stamping of clue numbers;
    - word extraction;
    - the clue sort;
    - hint validation and the publishing check.

  The page is a class (`Editor.CreatePage`) whose handlers update its fields. The scans are
  methods with loops, each proved against a specification function or predicate. The
  connectivity search marks a two-dimensional `visited` array by recursive depth-first search.
- **The solving page** (`Play`):
  - the cyclic row-major `findNextCell` and the first-cell focus;
  - the letter, Backspace and ArrowRight keys;
  - the answer grid sent for checking;
  - the clue mapping of the loader;
  - the like and favourite toggles.
- **The server entities**:
  - `Accounts.User`: constructor defaults, setters, temporary password, password check, the
    public and full views, and the username and password rules;
  - `Puzzles.Puzzle`: the answer-hiding cell mask, the views, the counters with Java `int`
    arithmetic, and the id range.
- **The server routes**:
  - `UserRoutes`: the access rule, paging clamps and the per-key profile update;
  - `Registration`: the ordered checks of account creation.
- **The smaller client modules**:
  - `MyPuzzles`: the paged lists of the my-puzzles page, merged without repeating an id;
  - `Forms`: the sign-up, reset-password, forgot-password and avatar form checks;
  - `SettingsStore`: the settings context, including its theme-class effect.

Server answers, storage, the clock, the random draws of the id generator and the password hash
are parameters of the model:
- a server answer is a value of a small datatype;
- a taken username or email is a predicate parameter;
- a hashed password is the free term `Digest(plain, salt)`.

## Model

| member | source | states |
|---|---|---|
| Grid.BlankGrid | frontend/app/create/page.tsx:162-179 | a fresh grid is `rows` x `cols` cells, every one open, letterless and not a word start |
| Grid.SetCell | frontend/app/create/page.tsx:247-253 | writing one cell of a copied grid changes that cell only; the shape is kept |
| Grid.Prev | frontend/app/create/page.tsx:308-342 | the step back along a direction stays on the line, and stepping forward again returns to the cell |
| Text.Utf16Length | backend/src/main/java/Puzzle_Lab/Entities/User.java:312-325 | the `.length` both runtimes report lies between the number of code points and twice that, and is 0 exactly for the empty string |
| Text.JsTrimEmpty | frontend/app/create/page.tsx:898 | `trim()` leaves nothing exactly when every character is JavaScript whitespace |
| Text.TrimStartShape | frontend/app/create/page.tsx:898 | leading trimming removes a prefix made only of whitespace and stops at the first other character |
| Text.TrimEndShape | frontend/app/create/page.tsx:898 | trailing trimming removes a suffix made only of whitespace and stops at the last other character |
| Text.UpperAscii | frontend/app/create/page.tsx:618-627 | `toUpperCase` on an ASCII letter gives the upper-case letter and leaves an upper-case one alone |
| Text.NatToStringInjective | backend/src/main/java/Puzzle_Lab/Routes/UserResource.java:152 | different natural numbers have different decimal texts |
| Text.IntToStringInjective | backend/src/main/java/Puzzle_Lab/Routes/UserResource.java:152 | different ids print differently, so comparing the principal's name with `id.toString()` compares ids |
| Text.IntToStringSign | backend/src/main/java/Puzzle_Lab/Routes/UserResource.java:99 | a number's text starts with a minus sign exactly when it is negative |
| Text.NatToStringOneDigit | backend/src/main/java/Puzzle_Lab/Routes/UserResource.java:99 | a number prints as a single digit exactly when it is below ten |
| Navigation.ScanFirst | frontend/app/create/page.tsx:283-305 | the line-by-line search returns the first matching cell in reading order from a given line on, or reports that there is none |
| Navigation.ScanLast | frontend/app/create/page.tsx:322-341 | the backward line search returns the last matching cell in reading order up to a given line, or reports that there is none |
| Navigation.StepAlong | frontend/app/create/page.tsx:511-571 | the nearest open cell on the same line past the cursor in the chosen sense, with none when the edge comes first (no wrapping) |
| Navigation.NextOpenAfter | frontend/app/create/page.tsx:269-306 | after a typed letter the cursor target is the first open cell after the cursor in reading order (row-major across, column-major down), or none |
| Navigation.PrevOpenBefore | frontend/app/create/page.tsx:308-342 | Backspace's target is the last open cell before the cursor in reading order, or none |
| Navigation.ConnectedRun | frontend/app/create/page.tsx:384-415 | the highlighted stretch is the maximal run of open cells through the cursor along the typing direction |
| Navigation.FirstCellInNextLine | frontend/app/create/page.tsx:417-501 | Enter first takes the first empty open cell on later lines; failing that, the first empty open cell in the other direction's order, turning; failing that, the first open cell in that order, turning; none only when every cell is blocked |
| Navigation.MatchInRange | frontend/app/create/page.tsx:417-501 | a cell the searches may stop at always lies inside the grid |
| Validation.ValidLetterMeansNonBlank | frontend/app/create/page.tsx:898 | a letter counts for the word check exactly when some character of it is not whitespace |
| Validation.FilledLen | frontend/app/create/page.tsx:921-924 | the length of the run of filled cells from a cell is bounded by the grid and stops at the first unfilled cell |
| Validation.MaximalRunIsFilledLen | frontend/app/create/page.tsx:918-941 | at a run start the counting loop measures exactly the maximal run of filled cells |
| Validation.LongRunsNotFlagged | frontend/app/create/page.tsx:918-941 | runs of three or more letters are never reported as short |
| Validation.IsolatedHasNoPair | frontend/app/create/page.tsx:902-916 | a letter with no lettered neighbour starts no two-letter run, so it is reported once, not twice |
| Validation.RunLength | frontend/app/create/page.tsx:921-924 | the inner counting loop returns the number of consecutive filled cells from the cell |
| Validation.HasConnection | frontend/app/create/page.tsx:905-910 | true exactly when some in-grid neighbour of the cell is filled |
| Validation.IsTwoLetterRun | frontend/app/create/page.tsx:918-928 | at a run start the check reports the run exactly when it has two cells |
| Validation.ShortWordsAt | frontend/app/create/page.tsx:902-941 | what one cell contributes: an isolated letter, a two-letter across run and a two-letter down run, across first |
| Validation.FindShortWords | frontend/app/create/page.tsx:894-945 | every reported entry is an isolated letter or the start of a maximal two-letter run, every such entry is reported, in reading order, without repeats |
| Validation.FindUnusedCells | frontend/app/create/page.tsx:631-644 | exactly the open cells without a letter, in row-major order |
| Validation.RowsHaveLetter | frontend/app/create/page.tsx:702-704 | true exactly when some row from the given one on holds an open lettered cell |
| Validation.RowHasLetter | frontend/app/create/page.tsx:703 | true exactly when the row holds an open lettered cell from the given column on |
| Validation.HasAnyLetters | frontend/app/create/page.tsx:702-704 | the empty-grid test: true exactly when some open cell has a letter |
| Connectivity.ReachableRefl | frontend/app/create/page.tsx:948-989 | every lettered open cell reaches itself |
| Connectivity.ReachableStep | frontend/app/create/page.tsx:966-976 | a lettered neighbour of a reachable cell is reachable |
| Connectivity.ReachableSym | frontend/app/create/page.tsx:948-989 | reachability is symmetric: every path can be walked backwards |
| Connectivity.ReachableTrans | frontend/app/create/page.tsx:948-989 | reachability is transitive |
| Connectivity.NeighbourSym | frontend/app/create/page.tsx:966-976 | the four-neighbour relation is symmetric |
| Connectivity.ClosedSetHoldsPath | frontend/app/create/page.tsx:966-976 | a set holding the start and closed under lettered neighbours holds every cell reachable from the start |
| Connectivity.CombineClosure | frontend/app/create/page.tsx:970-975 | marking a cell and then running its four neighbour searches leaves every newly marked cell with its lettered neighbours marked |
| Connectivity.Dfs | frontend/app/create/page.tsx:966-976 | the search marks every lettered cell reachable through unmarked lettered cells, and marks only reachable lettered cells |
| Connectivity.Visit | frontend/app/create/page.tsx:972-975 | one recursive call of the search keeps what was marked and marks only reachable lettered cells |
| Connectivity.FirstLetter | frontend/app/create/page.tsx:953-961 | the labelled search finds the first open lettered cell in row-major order, or none |
| Connectivity.AllLettersMarked | frontend/app/create/page.tsx:981-988 | true exactly when every open lettered cell is marked |
| Connectivity.IsGridConnected | frontend/app/create/page.tsx:948-989 | true exactly when the open lettered cells form one four-neighbour component, and true when there are none |
| Trim.Window | frontend/app/create/page.tsx:685-693 | the window shows the original cells shifted by the frame's corner |
| Trim.CutBottomFacts | frontend/app/create/page.tsx:657-661 | the bottom loop removes only clear rows and stops at three rows or at a row with a letter |
| Trim.CutTopFacts | frontend/app/create/page.tsx:664-668 | the top loop removes only clear rows and stops at three rows or at a row with a letter |
| Trim.CutRightFacts | frontend/app/create/page.tsx:671-675 | the right loop removes only clear columns and stops at three columns or at a column with a letter |
| Trim.CutLeftFacts | frontend/app/create/page.tsx:678-682 | the left loop removes only clear columns and stops at three columns or at a column with a letter |
| Trim.TrimBounds | frontend/app/create/page.tsx:647-694 | trimming never takes a dimension below three and leaves smaller dimensions alone |
| Trim.TrimDropsOnlyDisabled | frontend/app/create/page.tsx:647-694 | every removed cell was blocked or empty, so every letter stays, at the same place relative to the others |
| Trim.TrimEdgesUsed | frontend/app/create/page.tsx:647-694 | after trimming, each edge of a dimension larger than three holds a letter |
| Trim.TrimKeepsRows | frontend/app/create/page.tsx:657-668 | the trimmed grid's outer rows stop both row loops at once |
| Trim.TrimKeepsCols | frontend/app/create/page.tsx:671-682 | the trimmed grid's outer columns stop both column loops at once |
| Trim.TrimIdempotent | frontend/app/create/page.tsx:647-694 | trimming a trimmed grid removes nothing more |
| Trim.WindowRow | frontend/app/create/page.tsx:654-661 | a row of the window is disabled exactly when that row of the original is clear across the frame |
| Trim.WindowCol | frontend/app/create/page.tsx:671-682 | a column of the window is disabled exactly when that column of the original is clear down the frame |
| Trim.WindowDropRight | frontend/app/create/page.tsx:672-673 | removing the last column of a window is the window one column narrower |
| Trim.WindowDropLeft | frontend/app/create/page.tsx:679-680 | removing the first column of a window is the window one column further right |
| Trim.RemoveBottomRows | frontend/app/create/page.tsx:657-661 | the bottom loop leaves the window `CutBottom` describes |
| Trim.RemoveTopRows | frontend/app/create/page.tsx:664-668 | the top loop leaves the window `CutTop` describes |
| Trim.RemoveRightColumns | frontend/app/create/page.tsx:671-675 | the right loop leaves the window `CutRight` describes |
| Trim.RemoveLeftColumns | frontend/app/create/page.tsx:678-682 | the left loop leaves the window `CutLeft` describes |
| Trim.RemoveUnusedOuterRowsAndColumns | frontend/app/create/page.tsx:647-694 | the result is the window of the original that the single bottom, top, right, left pass leaves, and the flag says whether anything was removed |
| Numbering.RunStart | frontend/app/create/page.tsx:859-870 | the start of an open cell's run is on its line, open, no later than the cell, and preceded by the edge or a blocked cell |
| Numbering.RunOpen | frontend/app/create/page.tsx:859-870 | every cell from the run start up to the cell is open |
| Numbering.RunStartSpan | frontend/app/create/page.tsx:859-870 | every cell of the stretch from the run start to the cell has the same run start |
| Numbering.OpenLen | frontend/app/create/page.tsx:859-870 | the number of consecutive open cells from a cell, ending at the edge or a blocked cell |
| Numbering.OpenAlong | frontend/app/create/page.tsx:859-870 | up to the end of the run, a cell some steps on is open exactly when it is inside the run |
| Numbering.RunIsSegment | frontend/app/create/page.tsx:859-870 | the cells whose run starts at a cell are exactly the open cells from it up to the next blocked cell or the edge |
| Numbering.StartsBeforeMono | frontend/app/create/page.tsx:831-854 | the count of word starts never goes down in row-major order |
| Numbering.LabelsIncrease | frontend/app/create/page.tsx:831-854 | labels are 1, 2, 3, ... and strictly increase in row-major order |
| Numbering.LabelsDistinct | frontend/app/create/page.tsx:831-854 | no two cells share a label |
| Numbering.LabelAtMost | frontend/app/create/page.tsx:831-854 | every label is at most the number of word starts |
| Numbering.WordCellsCarryNumber | frontend/app/create/page.tsx:857-873 | for a word starting at a cell, the cells given its number are exactly the open cells from it up to the next blocked cell or the edge |
| Numbering.WordsHaveTwoCells | frontend/app/create/page.tsx:838-843 | every word has at least two cells |
| Numbering.HasWord | frontend/app/create/page.tsx:838-843 | a cell opens a word along a direction exactly when it is open, preceded by the edge or a blocked cell, and followed by an open cell |
| Numbering.PutCell | frontend/app/create/page.tsx:847-851 | writing one server cell changes that cell only |
| Numbering.InitApiCells | frontend/app/create/page.tsx:818-828 | every server cell starts with its character, or "" when blocked, and -1 as label and as both clue numbers |
| Numbering.EntryOf | frontend/app/create/page.tsx:845-852 | every labelled cell has its entry in the word-start list, at its label minus one |
| Numbering.WordStartsUnique | frontend/app/create/page.tsx:831-854 | the grid determines its word-start list |
| Numbering.WordStartsInside | frontend/app/create/page.tsx:831-854 | every listed word start lies on the grid |
| Numbering.WordStartsInOrder | frontend/app/create/page.tsx:831-854 | the word-start list runs in row-major order |
| Numbering.NumberCell | frontend/app/create/page.tsx:833-852 | one step of the labelling loop gives a word start the next label and appends its entry; other cells are passed over |
| Numbering.NumberStarts | frontend/app/create/page.tsx:831-854 | the labelling loop labels exactly the word starts, 1, 2, 3, ... in row-major order, each unlabelled cell keeps -1, and lists the starts with their directions, ACROSS first |
| Numbering.StampAcross | frontend/app/create/page.tsx:859-864 | the across loop gives the word's number to exactly the run of open cells from its start |
| Numbering.StampDown | frontend/app/create/page.tsx:866-870 | the down loop gives the word's number to exactly the run of open cells from its start |
| Numbering.SegmentIsRun | frontend/app/create/page.tsx:859-870 | stamping the open stretch from a start is stamping the cells whose run starts there |
| Numbering.StampStep | frontend/app/create/page.tsx:857-873 | stamping one more entry's word adds exactly the cells whose run starts there |
| Numbering.InDirections | frontend/app/create/page.tsx:835-844 | a word start lists a direction exactly when it opens a word that way |
| Numbering.HintUpToAll | frontend/app/create/page.tsx:857-873 | every clue number given is at most the number of word starts |
| Numbering.StampEntryAcross | frontend/app/create/page.tsx:858-864 | the across half of one round stamps the entry's across word, if any |
| Numbering.StampEntryDown | frontend/app/create/page.tsx:865-871 | the down half of one round stamps the entry's down word, if any |
| Numbering.StampHints | frontend/app/create/page.tsx:857-873 | every open cell gets the number of the across and the down word it lies in, and -1 where it lies in none |
| Numbering.PrepareGridForHints | frontend/app/create/page.tsx:812-876 | every server cell carries its character, its label and the numbers of its words, and the word starts are listed in label order |
| Numbering.WordFromLetters | frontend/app/create/page.tsx:879-891 | with one character per cell, the word has one character per cell of the run, in order |
| Numbering.GetWordAtPosition | frontend/app/create/page.tsx:879-891 | the letters of the run from the start up to the next blocked cell or the edge, read forward |
| Hints.EntryHints | frontend/app/create/page.tsx:740-749 | one hint input per listed direction of an entry, carrying its number, direction and word, with an empty hint |
| Hints.BuildHintInputs | frontend/app/create/page.tsx:739-750 | the two nested loops produce the hint inputs of the word-start list, entry after entry |
| Hints.WordStartsNumbered | frontend/app/create/page.tsx:831-854 | entry `i` of a grid's word-start list carries number `i + 1` and lists ACROSS before DOWN without repeats |
| Hints.HintsOfOrdered | frontend/app/create/page.tsx:739-750 | the hint inputs come out strictly ordered by number, ACROSS before DOWN |
| Hints.HintsOfSound | frontend/app/create/page.tsx:739-750 | every hint input names a word start, a direction it opens and that word, with an empty hint |
| Hints.HintsOfComplete | frontend/app/create/page.tsx:739-750 | every word a start opens has its hint input |
| Hints.CompareFollowsOrder | frontend/app/create/page.tsx:753-756 | the comparator is negative exactly when the first input comes first in clue order |
| Hints.OrderedIsSorted | frontend/app/create/page.tsx:753-756 | a list in clue order is sorted for the comparator |
| Hints.SortKeepsClueOrder | frontend/app/create/page.tsx:753-756 | the only sorted rearrangement of a list in clue order is the list itself, so the sort changes nothing |
| Hints.MissingHintErrors | frontend/app/create/page.tsx:999-1003 | one message per blank hint, in list order |
| Hints.NoMissingErrors | frontend/app/create/page.tsx:999-1006 | there are no hint messages exactly when no hint is empty or whitespace |
| Hints.ValidateHints | frontend/app/create/page.tsx:992-1009 | the title message first, then one message per blank hint; valid exactly when there are no messages |
| Hints.CollectMissingHints | frontend/app/create/page.tsx:999-1003 | the loop collects exactly the blank-hint messages |
| Hints.ToApiHints | frontend/app/create/page.tsx:1291-1295 | each hint is sent with its text, its number as label and its direction, in order |
| Hints.PublishCheck | frontend/app/create/page.tsx:1278-1302 | the request is built exactly when the title, every hint and the status are present; otherwise all the messages, status last |
| Editor.WithRow | frontend/app/create/page.tsx:181-192 | a blank row of the current width is appended and the old rows are kept |
| Editor.WithColumn | frontend/app/create/page.tsx:194-208 | every row gains a blank cell at its end and keeps its cells |
| Editor.WithoutLastRow | frontend/app/create/page.tsx:226-240 | the grid loses its last row only |
| Editor.WithoutLastColumn | frontend/app/create/page.tsx:210-224 | every row loses its last cell only |
| Editor.RemoveRowUndoesAdd | frontend/app/create/page.tsx:181-240 | removing the row just added gives the grid back |
| Editor.RemoveColumnUndoesAdd | frontend/app/create/page.tsx:194-224 | removing the column just added gives the grid back |
| Editor.Toggled | frontend/app/create/page.tsx:242-255 | the clicked cell switches between blocked and open and loses its letter; nothing else changes |
| Editor.Erased | frontend/app/create/page.tsx:590-617 | Backspace and Delete empty the selected cell and nothing else |
| Editor.ToggleTwice | frontend/app/create/page.tsx:242-255 | toggling twice restores the blocked flag; only the letter is lost |
| Editor.Typed | frontend/app/create/page.tsx:618-627 | a typed letter is stored upper-cased in the selected cell and nothing else changes |
| Editor.ArrowKey | frontend/app/create/page.tsx:506-571 | an arrow along the typing direction moves to the nearest open cell that way on the line, or stays; an arrow across it only turns the direction |
| Editor.EnterKey | frontend/app/create/page.tsx:575-587 | Enter moves to the three-stage target, turning the direction when the target says so, and stays when there is none |
| Editor.KeyPress | frontend/app/create/page.tsx:503-629 | each key's effect on grid, direction and cursor, and the grid stays the same rectangle with the cursor on it |
| Editor.KeysKeepLayout | frontend/app/create/page.tsx:503-629 | no key changes which cells are blocked, and the cursor only moves onto open cells |
| Editor.TypedLetterCounts | frontend/app/create/page.tsx:618-627 | a typed letter fills its cell for the word checks, and Backspace or Delete makes it an unused cell again |
| Editor.PreparedCells | frontend/app/create/page.tsx:812-876 | the prepared server cells are the cell-by-cell description of the grid |
| Editor.PrepareHints | frontend/app/create/page.tsx:736-750 | numbering plus hint inputs give the hint-writing start state |
| Editor.CheckShape | frontend/app/create/page.tsx:715-731 | the short-word error comes before the connectivity error, and unused cells are reported exactly when some open cell is empty |
| Editor.ShortWordsListed | frontend/app/create/page.tsx:720-722 | the short-word list is non-empty exactly when some word is short |
| Editor.UnusedCellsListed | frontend/app/create/page.tsx:733 | the unused list is non-empty exactly when some open cell is empty |
| Editor.PrepareSortedHints | frontend/app/create/page.tsx:736-756 | numbering, hint inputs and their sort give the same start state as without the sort |
| Editor.ReviewTrimmed | frontend/app/create/page.tsx:715-767 | errors exactly when a check fails; otherwise the unused-cells dialog exactly when an open cell is empty; otherwise the numbered grid and its hints |
| Editor.BlockedUnused | frontend/app/create/page.tsx:771-780 | blocking the unused cells keeps the grid's shape |
| Editor.BlockedUnusedCells | frontend/app/create/page.tsx:775-780 | exactly the empty open cells become blocked; every other cell is unchanged |
| Editor.BlockingKeepsLetters | frontend/app/create/page.tsx:771-780 | after blocking no unused cell is left and every letter is kept |
| Editor.BlockingKeepsShape | frontend/app/create/page.tsx:771-786 | blocking the unused cells changes neither the short-word nor the connectivity outcome |
| Editor.BlockingKeepsShortWords | frontend/app/create/page.tsx:771-786 | blocking the unused cells makes no word short and no short word long |
| Editor.BlockingKeepsConnected | frontend/app/create/page.tsx:771-786 | blocking the unused cells keeps the grid connected exactly when it was |
| Editor.DisableUnusedCells | frontend/app/create/page.tsx:772-781 | the loop over the unused cells yields the grid with exactly those cells blocked |
| Editor.DisableAndPrepare | frontend/app/create/page.tsx:771-799 | block the unused cells, then number the grid as it now is and list its hint inputs |
| Editor.TitleOf | frontend/app/create/page.tsx:995 | the title exists exactly when there is puzzle data |
| Editor.CreatePage.constructor | frontend/app/create/page.tsx:162-179 | a blank grid of the chosen size, no selection, typing across, creating mode, no hint data |
| Editor.CreatePage.AddRow | frontend/app/create/page.tsx:181-192 | one blank row more; cursor, direction and hint data unchanged |
| Editor.CreatePage.AddColumn | frontend/app/create/page.tsx:194-208 | one blank column more; cursor, direction and hint data unchanged |
| Editor.CreatePage.RemoveRow | frontend/app/create/page.tsx:226-240 | refused at three rows or fewer; otherwise the last row goes, and the selection too when it was on it |
| Editor.CreatePage.RemoveColumn | frontend/app/create/page.tsx:210-224 | refused at three columns or fewer; otherwise the last column goes, and the selection too when it was on it |
| Editor.CreatePage.HandleCellClick | frontend/app/create/page.tsx:242-255 | in creating mode the cell toggles and loses its letter; in hinting mode nothing happens |
| Editor.CreatePage.HandleCellSelect | frontend/app/create/page.tsx:257-267 | a new cell becomes the selection; the selected cell again turns the direction without moving |
| Editor.CreatePage.HandleKeyPress | frontend/app/create/page.tsx:503-629 | ignored with no selection or in hinting mode; otherwise the key's effect |
| Editor.CreatePage.HandleAddHints | frontend/app/create/page.tsx:697-768 | an empty grid is refused; otherwise the trimmed grid is checked, giving errors, the unused dialog, or hint writing with the numbered grid |
| Editor.CreatePage.TrimGrid | frontend/app/create/page.tsx:713 | the grid becomes the trimmed window and the size follows it |
| Editor.CreatePage.ApplyReview | frontend/app/create/page.tsx:727-766 | the review's outcome lands in exactly the fields the page sets for it |
| Editor.CreatePage.HandleDisableUnusedCells | frontend/app/create/page.tsx:771-810 | the unused cells are blocked, the dialog closes, and hint writing starts on the grid as it now is |
| Editor.CreatePage.SetHint | frontend/app/create/page.tsx:1264-1268 | only the hint text of the chosen input changes |
| Editor.CreatePage.SetTitle | frontend/app/create/page.tsx:1240 | the title changes only once there is puzzle data |
| Editor.CreatePage.SetDescription | frontend/app/create/page.tsx:1248 | the description changes only once there is puzzle data |
| Editor.CreatePage.SetStatus | frontend/app/create/page.tsx:1337 | the privacy status is replaced and nothing else |
| Editor.CreatePage.BackToEditing | frontend/app/create/page.tsx:1228 | the grid becomes editable again and the hint inputs are kept |
| Editor.CreatePage.CreateCrossword | frontend/app/create/page.tsx:1277-1302 | submitted exactly when title, every hint and status are present, with the hints as sent; otherwise every message is shown |
| Editor.CreatePage.FinishPublish | frontend/app/create/page.tsx:1303-1331 | without a non-empty token the sign-in dialog opens, exactly; a created puzzle leads to "my puzzles", exactly; a failed POST shows only the server's non-empty message, else "Failed to create crossword", or the exception's message, in the invalid dialog; grid, cursor, hints and status unchanged |
| Play.FindNextCell | frontend/app/play/page.tsx:184-199 | the first unblocked cell after the cursor in cyclic row-major order, the cursor itself when it is the only one, none exactly when every cell is blocked |
| Play.FirstOpenCell | frontend/app/play/page.tsx:171-181 | the first unblocked cell in row-major order, none exactly when every cell is blocked |
| Play.SuccIsNext | frontend/app/play/page.tsx:188-194 | short of the last cell, one step of the walk moves to the very next cell in row-major order |
| Play.NextCellUnique | frontend/app/play/page.tsx:184-199 | the walk's landing cell is determined |
| Play.NextCellOnlyOpen | frontend/app/play/page.tsx:184-199 | with a single unblocked cell, the walk comes back to it |
| Play.FirstIsNextAfterLast | frontend/app/play/page.tsx:171-199 | seen from the last cell, the next cell is the first unblocked one: the focus effect and the walk agree |
| Play.EmptyAnswers | frontend/app/play/page.tsx:140 | the letter grid starts `rows` x `cols`, every entry empty |
| Play.Put | frontend/app/play/page.tsx:206-207 | writing into the copied letter grid changes one entry only |
| Play.AnswerGrid | frontend/app/play/page.tsx:228-235 | the answer grid has the server grid's shape |
| Play.AnswerCells | frontend/app/play/page.tsx:228-235 | each answer cell keeps the server's label and clue numbers and carries the player's letter |
| Play.TypedLetterIsSent | frontend/app/play/page.tsx:205-235 | a typed letter is what the answer sends for its cell, and the other cells send what they sent before |
| Play.Clues | frontend/app/play/page.tsx:118-122 | one clue per server hint, in order, each carrying that hint's number, direction and text |
| Play.PublishedCluesShown | frontend/app/play/page.tsx:118-122 | the clues the creation page publishes come back with the same number, direction and text, in order |
| Play.Toggle | frontend/app/play/page.tsx:270-271 | a successful toggle flips the flag |
| Play.ToggleTwice | frontend/app/play/page.tsx:270-271 | toggling twice restores flag and count |
| Play.ToggleCounts | frontend/app/play/page.tsx:270-271 | the count goes up by one exactly when the flag is switched on and down by one exactly when it is switched off |
| Play.PlayPage.constructor | frontend/app/play/page.tsx:43-56 | the hooks' initial values: no puzzle, empty grids, no selection, zero counters |
| Play.PlayPage.ReceivePuzzle | frontend/app/play/page.tsx:93-143 | each failure shows its message and leaves the grids, the size, the cursor and the counters as they were; a loaded puzzle is shown with an empty letter grid of its size |
| Play.PlayPage.ShowPuzzle | frontend/app/play/page.tsx:129-143 | the puzzle data, the server cells, the letter grid and the counters are set together |
| Play.PlayPage.ReceiveMembership | frontend/app/play/page.tsx:146-156 | liked and favourite exactly when the puzzle is among the account's ids; nothing else changes |
| Play.PlayPage.FocusFirstCell | frontend/app/play/page.tsx:171-181 | the cursor goes to the first unblocked cell in row-major order, if any; nothing else changes |
| Play.PlayPage.HandleCellClick | frontend/app/play/page.tsx:341-342 | a click selects the cell unless it is blocked; nothing else changes |
| Play.PlayPage.HandleKeyPress | frontend/app/play/page.tsx:201-224 | a letter is written upper-cased and the cursor advances by the walk; Backspace clears and stays; ArrowRight only advances; otherwise nothing; the puzzle, counters, message and dialogs never change |
| Play.PlayPage.HandleSubmit | frontend/app/play/page.tsx:226-251 | nothing is sent before the puzzle loads; otherwise the answer grid is sent and the verdict opens its dialog, keeping the message, or a failure sets the message; grid, cursor and counters never change |
| Play.PlayPage.HandleLike | frontend/app/play/page.tsx:255-275 | with a puzzle and a token a successful request toggles the like with its count; a failed one only sets the message; the grid, the favourite and the dialogs never change |
| Play.PlayPage.HandleFavorite | frontend/app/play/page.tsx:276-296 | the same as the like button, for favourites |
| Accounts.ParseTheme | backend/src/main/java/Puzzle_Lab/Routes/UserResource.java:86-89 | a value names a theme exactly when it equals a constant's name, and then names that constant |
| Accounts.ValidUsernameNotBlank | backend/src/main/java/Puzzle_Lab/Entities/User.java:312-314 | a valid username is present, has a character that is not whitespace, and is 3 to 20 units long |
| Accounts.BlankUsernameRefused | backend/src/main/java/Puzzle_Lab/Entities/User.java:312-314 | a missing or whitespace-only username is refused, even at an allowed length |
| Accounts.SpacesMakeAPassword | backend/src/main/java/Puzzle_Lab/Entities/User.java:323-325 | passwords are checked by length only: eight spaces are accepted |
| Accounts.KeysApart | backend/src/main/java/Puzzle_Lab/Entities/User.java:166-189 | no field of the full view is both public and private |
| Accounts.User.constructor | backend/src/main/java/Puzzle_Lab/Entities/User.java:90-94 | the password is stored hashed and every other field takes its default: DEFAULT theme, not an administrator, no temporary password, empty lists |
| Accounts.User.Persist | backend/src/main/java/Puzzle_Lab/Routes/RegisterResource.java:41 | persisting gives the account its id and changes nothing else |
| Accounts.User.PublicDto | backend/src/main/java/Puzzle_Lab/Entities/User.java:166-174 | the public view has exactly the keys id, username, createdAt and avatar, each with the account's value |
| Accounts.User.FullDto | backend/src/main/java/Puzzle_Lab/Entities/User.java:179-189 | the full view is the public view plus email, theme, the administrator flag and the three id lists, each with the account's value |
| Accounts.User.VerifyPassword | backend/src/main/java/Puzzle_Lab/Entities/User.java:350-363 | the main password, or else the temporary one when there is one, is accepted |
| Accounts.User.SetUsername | backend/src/main/java/Puzzle_Lab/Entities/User.java:225-227 | replaces the username only |
| Accounts.User.SetPassword | backend/src/main/java/Puzzle_Lab/Entities/User.java:235-237 | stores the new password hashed and changes nothing else |
| Accounts.User.SetEmail | backend/src/main/java/Puzzle_Lab/Entities/User.java:245-247 | replaces the email only |
| Accounts.User.SetTheme | backend/src/main/java/Puzzle_Lab/Entities/User.java:255-257 | replaces the theme only |
| Accounts.User.SetAvatar | backend/src/main/java/Puzzle_Lab/Entities/User.java:275-277 | replaces the avatar only |
| Accounts.User.SetTempPassword | backend/src/main/java/Puzzle_Lab/Entities/User.java:264-268 | a given temporary password is stored hashed and the main one still works; a missing one changes nothing; no other field changes |
| Accounts.User.ClearTempPassword | backend/src/main/java/Puzzle_Lab/Entities/User.java:368-371 | afterwards there is no temporary password and only the main password is accepted; no other field changes |
| Puzzles.CellsList | backend/src/main/java/Puzzle_Lab/Entities/Puzzle.java:164-174 | the parsed cells, or a single empty row when parsing fails |
| Puzzles.MaskCells | backend/src/main/java/Puzzle_Lab/Entities/Puzzle.java:214-220 | the masking loop yields the masked cell list |
| Puzzles.MaskingHidesAnswers | backend/src/main/java/Puzzle_Lab/Entities/Puzzle.java:214-220 | after masking every character is a space, a cell is blocked exactly when its stored character was missing or a space, and labels and clue numbers are kept |
| Puzzles.MaskingForgetsLetters | backend/src/main/java/Puzzle_Lab/Entities/Puzzle.java:214-220 | two stored grids that differ only in their letters mask to the same view |
| Puzzles.Inc | backend/src/main/java/Puzzle_Lab/Entities/Puzzle.java:277-286 | Java `x++` on an `int`: one more, wrapping from the largest value to the smallest |
| Puzzles.Dec | backend/src/main/java/Puzzle_Lab/Entities/Puzzle.java:344-350 | one less when positive, unchanged otherwise |
| Puzzles.DecrementNeverNegative | backend/src/main/java/Puzzle_Lab/Entities/Puzzle.java:344-350 | a decrement never takes a count below zero and does nothing at zero |
| Puzzles.IncrementThenDecrement | backend/src/main/java/Puzzle_Lab/Entities/Puzzle.java:277-350 | below the wrap-around point an increment and a decrement cancel |
| Puzzles.GenerateUniqueId | backend/src/main/java/Puzzle_Lab/Entities/Puzzle.java:362-369 | a returned id lies in [100000, 999999], is not taken, and is the first such candidate of the draws |
| Puzzles.Puzzle.constructor | backend/src/main/java/Puzzle_Lab/Entities/Puzzle.java:66-73 | the given fields, a six-digit id, zero likes and favourites, created and updated today |
| Puzzles.Puzzle.EmptyView | backend/src/main/java/Puzzle_Lab/Entities/Puzzle.java:200-231 | the answer-hiding view shows the creator's public fields and masked cells, and no cells when they cannot be printed |
| Puzzles.Puzzle.EmptyDto | backend/src/main/java/Puzzle_Lab/Entities/Puzzle.java:200-231 | the fields, then the masking loop, give the answer-hiding view |
| Puzzles.Puzzle.FullDto | backend/src/main/java/Puzzle_Lab/Entities/Puzzle.java:236-241 | the answer-hiding view with the stored solution in place of the cells |
| Puzzles.Puzzle.IncrementLikeCount | backend/src/main/java/Puzzle_Lab/Entities/Puzzle.java:277-279 | the like count goes up by one with `int` wrap-around and nothing else changes |
| Puzzles.Puzzle.IncrementFavoriteCount | backend/src/main/java/Puzzle_Lab/Entities/Puzzle.java:284-286 | the favourite count goes up by one with `int` wrap-around and nothing else changes |
| Puzzles.Puzzle.DecrementLikeCount | backend/src/main/java/Puzzle_Lab/Entities/Puzzle.java:344-346 | the like count goes down by one unless it is zero, and nothing else changes |
| Puzzles.Puzzle.DecrementFavoriteCount | backend/src/main/java/Puzzle_Lab/Entities/Puzzle.java:348-350 | the favourite count goes down by one unless it is zero, and nothing else changes |
| UserRoutes.HasFullAccess | backend/src/main/java/Puzzle_Lab/Routes/UserResource.java:149-157 | no principal, no access; otherwise access exactly for the account's owner or an administrator |
| UserRoutes.OnlyOwnAccount | backend/src/main/java/Puzzle_Lab/Routes/UserResource.java:149-157 | a non-administrator owner of one account has no access to any other |
| UserRoutes.ClampLimit | backend/src/main/java/Puzzle_Lab/Routes/UserResource.java:127-129 | a missing limit is 12; otherwise the limit is clamped into [0, 100] |
| UserRoutes.ClampPage | backend/src/main/java/Puzzle_Lab/Routes/UserResource.java:130-132 | a missing page is 0; otherwise the page is never below 0 |
| UserRoutes.ClampingSettles | backend/src/main/java/Puzzle_Lab/Routes/UserResource.java:127-132 | clamping a clamped value changes nothing |
| UserRoutes.UsersPuzzles | backend/src/main/java/Puzzle_Lab/Routes/UserResource.java:122-142 | a missing account first; otherwise the query's page and limit are exactly the clamped inputs (page at least 0, limit 0 to 100), and it includes puzzles that are not public only for the owner or an administrator |
| UserRoutes.EveryKeyCounted | backend/src/main/java/Puzzle_Lab/Routes/UserResource.java:66-99 | every key is either applied or listed invalid, so the count reported is the number applied |
| UserRoutes.RefusalRules | backend/src/main/java/Puzzle_Lab/Routes/UserResource.java:69-96 | unknown keys, taken or invalid usernames, invalid passwords and unknown themes are refused; an avatar never is |
| UserRoutes.RefusedExactly | backend/src/main/java/Puzzle_Lab/Routes/UserResource.java:66-98 | a key is listed invalid exactly when its entry is not accepted; an email is refused only when it is taken |
| UserRoutes.NotListed | backend/src/main/java/Puzzle_Lab/Routes/UserResource.java:66-98 | a key absent from the body is never listed invalid |
| UserRoutes.NothingAcceptedNothingChanged | backend/src/main/java/Puzzle_Lab/Routes/UserResource.java:66-98 | a body with nothing accepted leaves the account as it was |
| UserRoutes.UpdateUser | backend/src/main/java/Puzzle_Lab/Routes/UserResource.java:57-100 | not found before forbidden, neither touching the account; otherwise each accepted entry is written in order and the message counts keys minus invalid ones; id, creation date, administrator flag, id lists and temporary password never change |
| Registration.RegisterError | backend/src/main/java/Puzzle_Lab/Routes/RegisterResource.java:25-39 | there is no error exactly when the username and password are valid and the username is free |
| Registration.FirstFailureReported | backend/src/main/java/Puzzle_Lab/Routes/RegisterResource.java:25-39 | the first failing check in the order missing username, missing password, invalid username, invalid password, taken names the message |
| Registration.EmailNotChecked | backend/src/main/java/Puzzle_Lab/Routes/RegisterResource.java:24-40 | the email never changes the outcome |
| Registration.RegisterUser | backend/src/main/java/Puzzle_Lab/Routes/RegisterResource.java:21-44 | every failure answers 400 before an account exists; success persists a new account built from the body and answers 201 with its token and full view |
| MyPuzzles.Merge | frontend/app/mypuzzles/page.tsx:72-75 | the merged list starts with the old list, unchanged |
| MyPuzzles.UnseenExactly | frontend/app/mypuzzles/page.tsx:73 | exactly the incoming puzzles whose id is not yet listed are appended |
| MyPuzzles.MergeLosesNothing | frontend/app/mypuzzles/page.tsx:72-75 | after a merge every incoming puzzle's id is present and the old list is in front |
| MyPuzzles.UnseenDistinct | frontend/app/mypuzzles/page.tsx:73 | the appended puzzles of a page without repeats have distinct ids |
| MyPuzzles.MergeKeepsIdsDistinct | frontend/app/mypuzzles/page.tsx:72-82 | merging keeps a list free of repeated ids |
| MyPuzzles.MyPuzzlesPage.constructor | frontend/app/mypuzzles/page.tsx:26-31 | both lists empty at page 0, not loading, more expected |
| MyPuzzles.MyPuzzlesPage.StartFetch | frontend/app/mypuzzles/page.tsx:36-46 | nothing while loading, without more pages, or for the own tab signed out; otherwise the tab loads and its page is requested |
| MyPuzzles.MyPuzzlesPage.FinishFetch | frontend/app/mypuzzles/page.tsx:69-90 | a page is merged in, the counter moves on by one and more is expected exactly when the page was full; a failure only stops loading; the other tab is untouched |
| Forms.ValidateUsername | frontend/components/LoginAndRegister.tsx:141-159 | required, then 3 to 20 units, then the server's answer; an exception accepts, a non-OK status leaves the field as it was |
| Forms.UsernameClientLooserThanServer | frontend/components/LoginAndRegister.tsx:144-145 | every name the server accepts passes the client, but three spaces pass the client and not the server |
| Forms.EmailFromParts | frontend/components/LoginAndRegister.tsx:166-168 | three non-empty space-free parts joined by '@' and '.' match the pattern |
| Forms.EmailSplits | frontend/components/LoginAndRegister.tsx:166-168 | every matching address splits into such three parts |
| Forms.ValidateEmail | frontend/components/LoginAndRegister.tsx:161-171 | required, then accepted exactly when the address matches the pattern |
| Forms.ValidatePassword | frontend/components/LoginAndRegister.tsx:178-186 | required, then accepted exactly when 8 to 64 units long |
| Forms.PasswordRulesAgree | frontend/components/LoginAndRegister.tsx:178-186 | the client accepts exactly the passwords the server accepts |
| Forms.ValidateConfirmPassword | frontend/components/LoginAndRegister.tsx:188-196 | required, then accepted exactly when equal to the password |
| Forms.HandleResetPassword | frontend/app/reset_password/page.tsx:65-103 | the length error before the mismatch error; the password is sent exactly when both pass, and the error clears exactly when the request succeeds |
| Forms.HandleForgotPassword | frontend/app/forgot_password/page.tsx:14-34 | success exactly when the request succeeds, an error exactly otherwise, whatever was shown before |
| Forms.EndsWithAny | frontend/components/SetAvatar.tsx:32 | true exactly when the value ends with one of the suffixes |
| Forms.AvatarChoice | frontend/components/SetAvatar.tsx:30-35 | the address itself exactly when it ends with an accepted suffix, otherwise none |
| Forms.AvatarSuffixCaseSensitive | frontend/components/SetAvatar.tsx:32 | ".png" is taken and ".PNG" refused |
| SettingsStore.UpdateSetting | frontend/contexts/SettingsContext.tsx:102-104 | the updated key takes the new value and the other keys keep theirs |
| SettingsStore.SettingsByKeys | frontend/contexts/SettingsContext.tsx:5-10 | a settings record is determined by its three keys |
| SettingsStore.UpdateSettingLaws | frontend/contexts/SettingsContext.tsx:102-104 | writing a key's own value changes nothing, and of two writes of one key the later wins |
| SettingsStore.Fallback | frontend/contexts/SettingsContext.tsx:112-124 | the stored settings over a missing avatar, always signed out; the defaults when nothing is stored |
| SettingsStore.AddToken | frontend/contexts/SettingsContext.tsx:142 | the class is present afterwards, and added only when it was missing |
| SettingsStore.ThemedClasses | frontend/contexts/SettingsContext.tsx:136-143 | every other class stays, and the only theme class left is the current theme's, present exactly when the theme is not DEFAULT |
| SettingsStore.DropThemesMembers | frontend/contexts/SettingsContext.tsx:136-138 | exactly the classes that are not theme classes are kept |
| SettingsStore.SkipRemoveKeepsATheme | frontend/contexts/SettingsContext.tsx:136-138 | the live-list walk leaves the second of two adjacent theme classes |
| SettingsStore.SkipRemoveWithOneTheme | frontend/contexts/SettingsContext.tsx:136-138 | with at most one theme class the walk removes every theme class |
| SettingsStore.NoThemes | frontend/contexts/SettingsContext.tsx:136-138 | a list without theme classes is left as it is |
| SettingsStore.RemoveThemesLive | frontend/contexts/SettingsContext.tsx:136-138 | the walk over the live list as written |
| SettingsStore.RemoveThemes | frontend/contexts/SettingsContext.tsx:136-138 | the intended removal keeps exactly the other classes, in order |
| SettingsStore.DropThemesKeepsDistinct | frontend/contexts/SettingsContext.tsx:136-138 | removing theme classes keeps the list free of repeats |
| SettingsStore.SettingsContext.constructor | frontend/contexts/SettingsContext.tsx:27-28 | the provider starts from the defaults, loading |
| SettingsStore.SettingsContext.SetSetting | frontend/contexts/SettingsContext.tsx:102-104 | the record becomes the one-key update of itself |
| SettingsStore.SettingsContext.FetchSettings | frontend/contexts/SettingsContext.tsx:31-72 | no token (absent or empty) or an exception: false and nothing changes; an account signs in with its avatar and theme; a rejected token is dropped with the user id and signs out |
| SettingsStore.SettingsContext.InitializeSettings | frontend/contexts/SettingsContext.tsx:106-130 | the server's account if any, otherwise the stored settings signed out, otherwise the defaults; token and user id are dropped exactly when a stored token is rejected; loading ends |
| SettingsStore.SettingsContext.SaveSettings | frontend/contexts/SettingsContext.tsx:75-99 | always written to storage; sent to the server exactly when signed in |
| SettingsStore.SettingsContext.SubmitAvatar | frontend/components/SetAvatar.tsx:24-38 | the avatar becomes the address when its suffix is accepted and none otherwise |
| SettingsStore.SettingsContext.ApplyThemeAsWritten | frontend/contexts/SettingsContext.tsx:136-143 | the class list after the live-list walk and the theme class; with at most one theme class present it is exactly the intended list; settings and storage unchanged |
| SettingsStore.SettingsContext.ApplyTheme | frontend/contexts/SettingsContext.tsx:136-143 | the class list keeps every other class and holds the current theme's class only, unless the theme is DEFAULT |
| SettingsStore.SettingsContext.ThemeEffect | frontend/contexts/SettingsContext.tsx:133-146 | nothing while loading; afterwards the theme class is applied by the corrected walk, the settings stored, and sent to the server exactly when signed in |

## Left out

- Network requests, REST routing and JWT tokens are not modelled. Every server answer is an
  input of the member that receives it (`Fetched`, `FetchAnswer`, `Availability`, `Outcome`, a
  verdict option).
- JSON parsing and printing are not modelled. A parse is an `Option`, and a failed print is a
  boolean parameter.
- The database is not modelled. Availability lookups are function parameters, and the database id
  is a parameter of `Persist`. The puzzle query itself is only described by its arguments.
- BCrypt is not modelled: a hash is the free term `Digest(plain, salt)` and the salt is a parameter.
- The clock is a parameter (`today`).
- The auth check of the creation page and its storage-event listener are not modelled
  (`frontend/app/create/page.tsx:92-138`).
- Cell sizing, `cellStyles` and the resize listeners are not modelled, because they are pixel
  arithmetic for display (`frontend/app/create/page.tsx:344-380`, `frontend/app/play/page.tsx:59-76`).
- JSX rendering, dialogs, tabs, scroll listeners and `setCustomValidity` are only the output
  channel. The closing of the avatar dialog is not modelled.
- NavBar.tsx, Logout.tsx, PlayPuzzle.tsx, Settings.tsx and app/page.tsx are not part of this
  model; they are display glue.
- The pre-mount theme script in layout.tsx is not part of this model.
- UsernameAvailableResource.java, ResponseBody.java and TokenService.java are not part of this
  model; they only wrap the database, Jackson and JWT.
- The `getUser`, `getMe` and `deleteUser` routes are not part of this model.
- The request-reset branch of the reset-password page cannot be reached (`!true`) and is not
  modelled.
- Asynchronous races are not modelled, such as a second click before a request returns.
- Rows of the editing grid are modelled as values. The handlers copy the grid shallowly and write
  into shared row arrays, so the previous state's rows change too. The model does not capture that
  aliasing. Its one observable effect is that `handleDisableUnusedCells` numbers the already
  blocked grid, although it passes the old `grid` variable. The model numbers the blocked grid.
- Hints.SortKeepsClueOrder: `Array.prototype.sort` is modelled by what it promises (a sorted
  rearrangement), not by its algorithm; the lemma shows any such result equals the input here.
- Puzzles.GenerateUniqueId: the retry loop draws as often as needed; the model is given finitely
  many draws and answers None when all are taken. The random source and the `Puzzle.count` query
  are parameters.
- Editor.CreatePage.constructor: `initializeGrid` returns early for a size below 1, leaving no
  grid; the model starts from a grid of at least one cell, which the size dialog's inputs ensure.
- Play.PlayPage.ReceivePuzzle: the server's grid is taken to be rectangular, as the creation page
  always publishes it; a ragged grid (rows of different lengths) is not modelled.
- Puzzles.Inc: Java `int` overflow is modelled explicitly; Java `long` ids are unbounded integers.
- SettingsStore.Fallback: a stored settings text that fails to parse throws inside the effect in
  the source; the model takes the parsed fields as given.
- Text.Utf16Length: characters are Unicode scalar values; unpaired surrogates are not modelled.
- SettingsStore.SettingsContext.ThemeEffect: removes the old theme classes by the corrected walk rather than the live-list walk of the source (see Findings); the two agree whenever at most one theme class is present, which is all the client itself ever leaves.
- Forms.ValidateEmail: the browser's own `type="email"` constraint is not modelled, only the
  page's pattern.

## Findings

| source | as written | input that shows it | evidently intended | confidence | as-written member | corrected member |
|---|---|---|---|---|---|---|
| frontend/contexts/SettingsContext.tsx:136-138 | the effect removes `theme-*` classes while iterating the live `classList` with `forEach`; each removal shifts the following token into the current index, so the token after a removed one is skipped | class list `["theme-DARK", "theme-MANGO"]` leaves `"theme-MANGO"` after the walk | every `theme-*` class is removed before the current theme's class is added | low, not executed (the client itself leaves at most one theme class, so the pair needs another source such as the pre-mount script) | SettingsStore.SkipRemoveKeepsATheme | SettingsStore.SettingsContext.ApplyTheme |
