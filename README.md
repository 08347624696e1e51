# Vocabulary trainer core, modelled in Dafny

This project models the logic of a desktop vocabulary trainer. It covers:

- the FSRS-style card scheduler (`FsrsScheduler`);
- the study session, which builds a queue of due and fresh words and rates them one by one (`StudyView`);
- the self-test, which asks spelling or four-way choice questions and keeps a running score (`TestView`);
- the word-list importers for CSV, TXT and JSON (`DictionaryParser`);
- the list model behind the word browser: filter, favourites and sorting (`WordModel`);
- the application theme, which can follow the system colour scheme (`ThemeManager`).

Each source file becomes one module:

| module | file | form |
|---|---|---|
| `Fsrs` | fsrs.dfy | pure functions and lemmas |
| `Study` | study.dfy | the `CardStore` and `StudyView` classes, plus the queue as a specification function |
| `Quiz` | quiz.dfy | the `TestView` class, plus distractors and options as specification functions |
| `Dictionary` | dictionary.dfy | per-line record functions, and loop methods proved against them |
| `WordList` | word_model.dfy | the `WordModel` class, with filtering and sorting specified by functions |
| `Themes` | theme.dfy | the `ThemeManager` class |

Three modules hold shared pieces:

- `Words`: the `Word` record.
- `Text`: the `QString` operations the code relies on, namely trimming, splitting, case-insensitive comparison and containment.
- `Shuffling`: `std::shuffle` as Fisher–Yates driven by an explicit list of engine draws. Every permutation is reachable by some draws (`Shuffling.PermutationReachable`). A draw list therefore stands for an arbitrary shuffle.

Other modelling choices:

- Randomness, the clock, the database, file contents and the platform's colour scheme come in as parameters.
- Doubles are reals.
- `std::exp` and `std::pow` come in as a `Math` value.
- Time is in integer seconds, and a day is 86400 seconds.

## Model

| member | source | states |
|---|---|---|
| Fsrs.Round | src/core/FsrsScheduler.cpp:35 | std::round gives the nearest integer, within one half of the argument, and is never negative for a non-negative argument |
| Fsrs.InitStability | src/core/FsrsScheduler.cpp:7-9 | the initial stability is at least 0.1 |
| Fsrs.InitStabilityIsWeight | src/core/FsrsScheduler.cpp:7-9 | the 0.1 floor never applies, so the initial stability is the rating's weight: 0.4, 0.6, 2.4 or 5.8 |
| Fsrs.InitDifficulty | src/core/FsrsScheduler.cpp:11-13 | the initial difficulty lies in [1, 10] |
| Fsrs.InitDifficultyAntitone | src/core/FsrsScheduler.cpp:11-13 | a better rating never gives a higher initial difficulty |
| Fsrs.NextDifficulty | src/core/FsrsScheduler.cpp:15-18 | the next difficulty lies in [1, 10] |
| Fsrs.NextDifficultyMonotone | src/core/FsrsScheduler.cpp:15-18 | the next difficulty grows with the old difficulty and falls as the rating improves |
| Fsrs.NextStability | src/core/FsrsScheduler.cpp:20-28 | with exp and pow of the real signs, a successful review of a card with positive stability and difficulty below 11 strictly raises its stability, and at difficulty 11 the stability stays; ScheduleFromReview ties the Hard, Good and Easy stability of a Review card to it |
| Fsrs.NextForgetStability | src/core/FsrsScheduler.cpp:30-32 | the stability after a lapse is never above the stability before it |
| Fsrs.NextInterval | src/core/FsrsScheduler.cpp:34-37 | the next interval is at least one day |
| Fsrs.NextIntervalMonotone | src/core/FsrsScheduler.cpp:34-37 | a longer stability never gives a shorter interval |
| Fsrs.RoundMonotone | src/core/FsrsScheduler.cpp:35 | rounding is monotone |
| Fsrs.InitialIntervals | src/core/FsrsScheduler.cpp:59-60 | the fresh Good and Easy stabilities give intervals of 22 and 52 days |
| Fsrs.Schedule | src/core/FsrsScheduler.cpp:39-91 | every rating counts one more review at `now`; id, word id and elapsed days are kept |
| Fsrs.ScheduleFromNew | src/core/FsrsScheduler.cpp:44-62 | for a New card, the full outcome of each rating: stability, difficulty, lapses, state (Again goes to Learning, the rest to Review), scheduled days and due time (60 s, 300 s, 600 s or 52 days) |
| Fsrs.ScheduleFromLearning | src/core/FsrsScheduler.cpp:63-73 | for a Learning or Relearning card: Again moves the due time one minute ahead; Good graduates the card to Review for 22 days; Hard and Easy change only the review count and time |
| Fsrs.ScheduleFromReview | src/core/FsrsScheduler.cpp:74-88 | for a Review card: Again is a lapse and goes to Relearning in a minute, with the stability NextForgetStability gives, which is no greater than before; any other rating keeps the state and schedules the card at least a day ahead, with the due time matching the scheduled days |
| Fsrs.LapsesCountOnlyReviewFailures | src/core/FsrsScheduler.cpp:75-76 | lapses grow by one exactly on Again outside states 0, 1 and 3 |
| Fsrs.ScheduleKeepsScheduled | src/core/FsrsScheduler.cpp:39-91 | once rated, a card never returns to New, and its difficulty stays in [1, 10] |
| Fsrs.DueNotBeforeNow | src/core/FsrsScheduler.cpp:39-91 | the new due time is at least a minute after `now`, except on the two no-op ratings, which keep the old due time |
| Shuffling.Shuffle | src/ui/StudyView.cpp:133-134 | shuffling keeps the length and the multiset of elements |
| Shuffling.ShuffleMembers | src/ui/StudyView.cpp:133-134 | an element is in the shuffle exactly when it is in the input |
| Shuffling.ShuffleDistinctBy | src/ui/TestView.cpp:242-244 | shuffling a list whose keys do not repeat gives a list whose keys do not repeat |
| Shuffling.PermutationReachable | src/ui/TestView.cpp:154-155 | every permutation of the input is the shuffle for some draws |
| Study.SessionQueue | src/ui/StudyView.cpp:127-146 | the due words come first, unchanged; with 20 or more due nothing is added; otherwise at most 20 words, each added one with an id not queued before it |
| Study.FillKeepsPrefix | src/ui/StudyView.cpp:136-145 | the fill loop only appends: the words already queued stay first, in order |
| Study.FillBounded | src/ui/StudyView.cpp:137 | starting from at most 20 words, the fill never goes past 20 |
| Study.FillFreshIds | src/ui/StudyView.cpp:140-144 | every appended word has an id no earlier queued word has |
| Study.FillFollowsPool | src/ui/StudyView.cpp:136-145 | the appended words keep their order from the shuffled pool |
| Study.SessionQueueProperties | src/ui/StudyView.cpp:123-146 | the due words come first, unchanged; at most 20 words are queued when at most 20 are due; filled words have ids not queued before them and follow the shuffled pool's order; the queue holds exactly 20 words whenever the due words plus the pool's new ids reach 20 |
| Study.FillLength | src/ui/StudyView.cpp:136-145 | the fill stops at 20 words or when the pool's new ids run out, whichever comes first |
| Study.BuildQueue | src/ui/StudyView.cpp:127-146 | the fill loop builds exactly the session queue of the due list and the shuffled pool |
| Study.Queued | src/ui/StudyView.cpp:140-143 | the duplicate scan reports true exactly when a queued word has the id |
| Study.KeysMatchButtons | src/ui/StudyView.cpp:228-231 | keys 1 to 4 rate exactly as the four buttons do, Again to Easy; no other key rates |
| Study.CardStore.Lookup | src/db/DatabaseManager.cpp:295-325 | the card handed out belongs to the word; a missing card is New, unreviewed and due now |
| Study.CardStore.GetCard | src/db/DatabaseManager.cpp:295-325 | reads the word's card, storing the new card and using up one row id when the word had none |
| Study.CardStore.UpdateCard | src/db/DatabaseManager.cpp:327-349 | a successful write replaces the stored card that has the same row id; a failed write changes nothing |
| Study.StudyView.constructor | src/ui/StudyView.cpp:12 | the view starts with an empty queue at index 0 |
| Study.StudyView.ShowNextCard | src/ui/StudyView.cpp:157-181 | shows the card at the index with its answer hidden, or the finished notice past the end |
| Study.StudyView.StartSession | src/ui/StudyView.cpp:123-155 | the queue is the session queue at index 0; the first card is shown, or the empty notice when nothing is queued |
| Study.StudyView.ShowAnswer | src/ui/StudyView.cpp:183-206 | the rating buttons come up and nothing else changes |
| Study.StudyView.ProcessRating | src/ui/StudyView.cpp:208-226 | past the end, nothing happens; otherwise the current word's card is fetched or created, scheduled once with the rating and written back, and the index moves on by exactly one whether or not the write succeeded; the id counter grows by one exactly when the card had to be created |
| Study.StudyView.KeyPress | src/ui/StudyView.cpp:237-253 | Space shows the answer only while it is hidden; afterwards only keys 1 to 4 rate and move on |
| Quiz.FirstWithId | src/ui/TestView.cpp:225-230 | the first position carrying the id, or the length when no position carries it |
| Quiz.RemoveFirstId | src/ui/TestView.cpp:225-230 | when a word carries the id, exactly one such word goes (the first) and the rest keep their order, so the result is one shorter; otherwise the book is unchanged |
| Quiz.Distractors | src/ui/TestView.cpp:222-246 | always exactly three distractors, each a placeholder or a word of the book |
| Quiz.Options | src/ui/TestView.cpp:202-209 | four options, which are the three distractors and the answer in some order |
| Quiz.RemoveFirstIdRemovesAll | src/ui/TestView.cpp:225-230 | with unique ids, no remaining word carries the answer's id |
| Quiz.DistractorsDistinct | src/ui/TestView.cpp:222-246 | with unique ids, the real distractors differ from the answer and from each other |
| Quiz.DistractorsFromBook | src/ui/TestView.cpp:241-245 | with at least three other words in the book, no placeholder is used |
| Quiz.LastWithId | src/ui/TestView.cpp:211-218 | the last option carrying the id; the previous index stands when no option carries it |
| Quiz.OnlyAnswerCarriesId | src/ui/TestView.cpp:202-206 | with unique ids and a real answer, only the answer among the four candidates carries its id |
| Quiz.OptionsHoldAnswer | src/ui/TestView.cpp:202-218 | there are four options, and the answer is one of them; the marked index is in range and carries the answer's id; with unique ids it is the answer itself |
| Quiz.Judge | src/ui/TestView.cpp:305-311 | the comparison the method makes is the answer-matching predicate |
| Quiz.JudgeAcceptsPadded | src/ui/TestView.cpp:305-311 | the spelling typed in any case, with any white space around it, is accepted |
| Quiz.JudgeRightIsPadded | src/ui/TestView.cpp:305-311 | every accepted answer is white space, then the spelling in some case, then white space |
| Quiz.TestView.constructor | src/ui/TestView.cpp:23 | the view starts in spelling mode with no questions and a zero score |
| Quiz.TestView.ShowQuestion | src/ui/TestView.cpp:167-220 | past the end, shows the final score over the queue length; in spelling mode, asks with the definition; in choice mode, asks with the spelling and shows the four options, with the marked one carrying the word's id |
| Quiz.TestView.ShowFinal | src/ui/TestView.cpp:168-173 | the answer area hides, and the score over the queue length replaces the result line |
| Quiz.TestView.AskSpelling | src/ui/TestView.cpp:182-191 | the definition is the prompt, and the submit button checks the answer |
| Quiz.TestView.PutChoices | src/ui/TestView.cpp:192-219 | the spelling prompt, the options and the marked index go on screen, with the choice buttons enabled and the next button hidden; the queue, index and score are untouched |
| Quiz.TestView.AskChoice | src/ui/TestView.cpp:192-219 | the spelling is the prompt; the options are the shuffled distractors plus the answer, all enabled, with the last option carrying the id marked correct |
| Quiz.TestView.ChoiceQuestion | src/ui/TestView.cpp:202-218 | the options and the marked index, which always carries the word's id |
| Quiz.TestView.MarkCorrect | src/ui/TestView.cpp:211-218 | the button loop marks the last option carrying the id |
| Quiz.TestView.RemoveAnswer | src/ui/TestView.cpp:225-230 | the search loop removes exactly what RemoveFirstId removes |
| Quiz.TestView.GenerateDistractors | src/ui/TestView.cpp:222-246 | the loops compute exactly the three distractors of the specification |
| Quiz.TestView.StartTest | src/ui/TestView.cpp:145-165 | an empty book leaves the queue empty and the score and screen as they were; otherwise the shuffled words, cut to `count`, are asked from the first with the score at zero: in spelling mode with the first word's definition; in choice mode with its spelling and the options of that word, the marked one carrying its id |
| Quiz.TestView.OnChoiceClicked | src/ui/TestView.cpp:248-302 | a choice is right exactly when it is the marked option; the buttons lock, the next button shows, and only a right choice scores; in choice mode the score bound is kept |
| Quiz.TestView.OnCheckAnswer | src/ui/TestView.cpp:304-356 | a right spelling scores one; a wrong one shows the correct spelling; the submit button then leads on; a check of a question not yet answered, in spelling mode, keeps the score bound |
| Quiz.TestView.RecordAnswer | src/ui/TestView.cpp:313-355 | the verdict and the score follow the judgement, and the submit button leads on |
| Quiz.TestView.OnNextQuestion | src/ui/TestView.cpp:358-361 | one question on, with the score kept and the score bound preserved; past the end, the final score shows; otherwise the next word is asked: by its definition in spelling mode, or by its spelling with its options in choice mode |
| Quiz.TestView.OnSubmit | src/ui/TestView.cpp:96-102 | as intended for the submit button and the Return key: the first press checks the answer and marks the question answered, the second goes on; in spelling mode the score bound (at most one point per question, and none once the question is answered) is kept |
| Quiz.SubmitRun | src/ui/TestView.cpp:96-102 | as intended: in a spelling test where Return submits like the button, whatever is typed, a final screen never shows a score above the number of questions |
| Quiz.ReturnTwiceScoresTwice | src/ui/TestView.cpp:96 | as written, two Returns on a right answer score the one question twice, and a one-word test ends 2 / 1, a state that breaks the score bound |
| Quiz.TestView.OnModeChanged | src/ui/TestView.cpp:363-366 | switches mode and restarts the test; with words, the score bound holds afresh |
| Quiz.TestView.KeyPress | src/ui/TestView.cpp:385-404 | keys never change the score or the question in spelling mode, and never add more than one point |
| Dictionary.LastIndexOf | src/core/DictionaryParser.cpp:13-14 | the position of the last occurrence, or -1 when there is none |
| Dictionary.FileName | src/core/DictionaryParser.cpp:13-14 | the file name holds no '/' and is no longer than the path |
| Dictionary.FileNameIsLastSegment | src/core/DictionaryParser.cpp:13-14 | the file name is the tail of the path after its last '/' |
| Dictionary.Suffix | src/core/DictionaryParser.cpp:13-14 | the suffix holds no '.' or '/'; it is empty when the file name has no '.', and shorter than the name otherwise |
| Dictionary.FormatOf | src/core/DictionaryParser.cpp:14-22 | JSON exactly when the suffix is "json" ignoring case, TXT exactly when it is "txt" ignoring case, CSV otherwise |
| Dictionary.LastIndexOfAppend | src/core/DictionaryParser.cpp:13-14 | text without the character, appended, does not move its last occurrence |
| Dictionary.SuffixOfExtension | src/core/DictionaryParser.cpp:13-14 | a file named stem.ext has suffix ext |
| Dictionary.ExtensionSelectsParser | src/core/DictionaryParser.cpp:12-23 | "json" in any case picks the JSON parser, "txt" in any case the TXT parser, and every other extension the CSV parser |
| Dictionary.NoExtensionIsCsv | src/core/DictionaryParser.cpp:12-23 | a file name without a dot goes to the CSV parser |
| Dictionary.Emitted | src/core/DictionaryParser.cpp:74 | only records with a spelling are kept, and each comes from the input |
| Dictionary.EmittedIsFilter | src/core/DictionaryParser.cpp:74 | the records kept are in input order, and every record with a spelling is kept |
| Dictionary.Records | src/core/DictionaryParser.cpp:50-51 | one record per line, in order |
| Dictionary.CsvRecord | src/core/DictionaryParser.cpp:55-73 | as intended (the CJK test matches): a CSV record is never a favourite and has the default id and book |
| Dictionary.CsvRecordAsWritten | src/core/DictionaryParser.cpp:58-66 | as written: a two-field line always puts its trimmed second field in the phonetic and leaves the definition empty; any other line gives the intended record |
| Dictionary.CsvGlossMisfiled | src/core/DictionaryParser.cpp:58-66 | on a two-field line whose second field holds a CJK character, the code as written files it as the phonetic and the intended record files it as the definition |
| Dictionary.CsvChineseGlossMisfiled | src/core/DictionaryParser.cpp:58-66 | the line `apple,苹果` gives the phonetic "苹果" as written and the definition "苹果" as intended |
| Dictionary.CsvFieldAssignment | src/core/DictionaryParser.cpp:52-71 | as intended, fields map one by one: two fields give the definition when the second has a CJK character and the phonetic otherwise; more fields give phonetic, definition, example and the ';'-separated tags without empty ones; all trimmed |
| Dictionary.CsvLine | src/core/DictionaryParser.cpp:52-73 | the loop body computes the intended CSV record of the line |
| Dictionary.ParseCsv | src/core/DictionaryParser.cpp:25-78 | an unreadable file gives nothing; otherwise the intended records of the lines with a spelling, in order |
| Dictionary.TxtRecord | src/core/DictionaryParser.cpp:177-194 | a TXT record has no phonetic, example or tags and is never a favourite |
| Dictionary.TxtFields | src/core/DictionaryParser.cpp:180-194 | the same for an already trimmed line |
| Dictionary.TxtPipeLine | src/core/DictionaryParser.cpp:181-184 | a line with '\|' gives the trimmed text before the first '\|' as the spelling and the trimmed next part as the definition |
| Dictionary.TxtTabLine | src/core/DictionaryParser.cpp:185-188 | a line with a tab and no '\|' splits the same way on the first tab |
| Dictionary.TxtPlainLine | src/core/DictionaryParser.cpp:189-191 | a line with neither separator is the spelling alone |
| Dictionary.TxtRecordOfTrimmed | src/core/DictionaryParser.cpp:177-178 | the record depends only on the trimmed line, and a blank line gives no spelling |
| Dictionary.TxtLine | src/core/DictionaryParser.cpp:180-191 | the loop body computes the record of the trimmed line |
| Dictionary.TxtStep | src/core/DictionaryParser.cpp:177-194 | one pass of the loop computes the TXT record of the raw line |
| Dictionary.ParseTxt | src/core/DictionaryParser.cpp:150-201 | an unreadable file gives nothing; otherwise the records of the lines with a spelling, in order |
| Dictionary.FirstKeyPriority | src/core/DictionaryParser.cpp:115-125 | the first key present wins, whatever later keys hold |
| Dictionary.FirstKeyAbsent | src/core/DictionaryParser.cpp:115-125 | no key present gives the empty text |
| Dictionary.JsonRecord | src/core/DictionaryParser.cpp:113-140 | a JSON record is never a favourite, has no tags, and has the default id and book |
| Dictionary.JsonRecords | src/core/DictionaryParser.cpp:111-113 | at most one record per entry |
| Dictionary.JsonSpellingPriority | src/core/DictionaryParser.cpp:115-117 | "spelling" beats "word", which beats "headWord"; the spelling is trimmed |
| Dictionary.JsonDefinitionPriority | src/core/DictionaryParser.cpp:119-125 | "definition" beats "trans", which beats "mean", and "phonetic" beats "phone", which beats "usphone"; neither is trimmed |
| Dictionary.JsonRecordsNotFavorite | src/core/DictionaryParser.cpp:140 | no imported JSON word is a favourite |
| Dictionary.ParseJson | src/core/DictionaryParser.cpp:80-148 | an unreadable file gives nothing; otherwise the records of the object entries with a spelling, in order |
| Dictionary.ParseFile | src/core/DictionaryParser.cpp:12-23 | dispatches on the suffix; whatever the format, every word has a spelling, none is a favourite, and there are no more words than lines or entries |
| Text.TrimStart | src/core/DictionaryParser.cpp:56 | the result is a suffix of the input that does not start with white space |
| Text.TrimStartDropsSpace | src/core/DictionaryParser.cpp:56 | everything dropped at the front is white space |
| Text.TrimEnd | src/core/DictionaryParser.cpp:56 | the result is a prefix of the input that does not end with white space |
| Text.TrimEndDropsSpace | src/core/DictionaryParser.cpp:56 | everything dropped at the back is white space |
| Text.Trim | src/core/DictionaryParser.cpp:56 | the trimmed text is no longer than the input, and neither of its ends is white space |
| Text.TrimEmptyIff | src/core/DictionaryParser.cpp:177-178 | trimming leaves nothing exactly when the line is all white space |
| Text.TrimIdempotent | src/core/DictionaryParser.cpp:177 | trimming twice is trimming once |
| Text.IndexOf | src/core/DictionaryParser.cpp:181-182 | the first position of a character the text contains |
| Text.Split | src/core/DictionaryParser.cpp:52 | at least one part, none containing the separator |
| Text.JoinSplit | src/core/DictionaryParser.cpp:52 | joining the parts back gives the line |
| Text.SplitJoin | src/core/DictionaryParser.cpp:52 | splitting joined separator-free parts gives the parts back |
| Text.SplitAfter | src/core/DictionaryParser.cpp:182 | the text before the first separator is the first part |
| Text.SplitWithoutSeparator | src/core/DictionaryParser.cpp:52 | a line without the separator is one part |
| Text.NonEmpty | src/core/DictionaryParser.cpp:70 | the parts kept are non-empty parts of the input |
| Text.ContainsIff | src/core/WordModel.cpp:63 | containment is exactly "occurs at some position" |
| Text.ContainsEmpty | src/core/WordModel.cpp:58-59 | the empty text occurs in every text |
| Text.LexLessIrreflexive | src/core/WordModel.cpp:95-97 | no spelling sorts before itself |
| Text.LexLessTotal | src/core/WordModel.cpp:95-97 | any two spellings compare one way, the other way, or are equal |
| Text.LexLessTransitive | src/core/WordModel.cpp:95-97 | the comparison is transitive |
| WordList.Matching | src/core/WordModel.cpp:61-66 | every word kept contains the text, ignoring case |
| WordList.MatchingIsFilter | src/core/WordModel.cpp:61-66 | the filter keeps the words in their order, and keeps exactly the words that contain the text |
| WordList.EmptyTextMatchesAll | src/core/WordModel.cpp:58-59 | the shortcut for the empty text agrees with the general rule |
| WordList.MatchingIdempotent | src/core/WordModel.cpp:56-69 | filtering the filtered words again by the same text changes nothing |
| WordList.Insert | src/core/WordModel.cpp:95-97 | inserting into a sorted list keeps it sorted and adds exactly the word |
| WordList.SortBySpelling | src/core/WordModel.cpp:95-97 | the alphabetical sort gives a permutation, sorted ignoring case |
| WordList.SortedRowsOrdered | src/core/WordModel.cpp:95-97 | in a sorted list each row sorts before every row below it, or ties with it |
| WordList.DisplayText | src/core/WordModel.cpp:24 | the display text starts with the spelling, ends with the definition, and puts five characters between them |
| WordList.Field | src/core/WordModel.cpp:18-35 | a row has a value for exactly the display role and the six model roles |
| WordList.WordModel.constructor | src/core/WordModel.cpp:4-5 | the model starts empty |
| WordList.WordModel.RowCount | src/core/WordModel.cpp:7-10 | no rows under a valid parent; otherwise one row per shown word |
| WordList.WordModel.Data | src/core/WordModel.cpp:12-16 | an invalid index or a row past the end has no value; a row in range has its field for the role |
| WordList.WordModel.LoadWords | src/core/WordModel.cpp:49-54 | the loaded words and the shown rows both become the stored words |
| WordList.WordModel.SetFilter | src/core/WordModel.cpp:56-69 | the loaded words are unchanged, and the shown rows are exactly the loaded words containing the text, so filters never compound |
| WordList.WordModel.AddWord | src/core/WordModel.cpp:71-78 | an accepted word is appended to both lists; a rejected one changes nothing |
| WordList.WordModel.ToggleFavorite | src/core/WordModel.cpp:80-90 | only the row's flag flips, and only after a successful write; the loaded words are unchanged |
| WordList.WordModel.SortWords | src/core/WordModel.cpp:92-102 | the rows are permuted, never changed; alphabetical order sorts them ignoring case; random order is the shuffle of the draws |
| WordList.ToggleThenClearFilter | src/core/WordModel.cpp:80-90 | a flipped favourite reverts to its loaded flag once the filter is cleared |
| Themes.StyleOf | src/ui/ThemeManager.cpp:62 | Dark installs the dark look and anything else the light look; installing never leaves Qt's default |
| Themes.SystemTheme | src/ui/ThemeManager.cpp:45-50 | following the system gives Dark exactly for a dark scheme, and never Auto |
| Themes.ThemeManager.constructor | src/ui/ThemeManager.cpp:14-27 | as written: the font is Inter when it loads, else Segoe UI, at 10 points; the theme follows the system; the look matches the theme only on a dark system |
| Themes.ThemeManager.Started | src/ui/ThemeManager.cpp:14-27 | as intended: the system's theme is installed and signalled whatever it is, so the look matches the theme from the start |
| Themes.ThemeManager.SetTheme | src/ui/ThemeManager.cpp:29-36 | records the user's pick; Auto follows the system and any other theme is installed; a change is signalled once, and a matching look stays matching |
| Themes.ThemeManager.CurrentTheme | src/ui/ThemeManager.cpp:38-40 | the theme in effect, never Auto |
| Themes.ThemeManager.UpdateSystemTheme | src/ui/ThemeManager.cpp:42-51 | does nothing unless the user's pick is Auto, and otherwise installs the system's theme |
| Themes.ThemeManager.ApplyTheme | src/ui/ThemeManager.cpp:53-56 | the current theme is left alone and not signalled again; any other theme is installed and signalled once |
| Themes.LightStartUnstyled | src/ui/ThemeManager.cpp:14 | as written, a light system starts with Qt's default look, and only going to Dark and back installs the light look |

## Left out

- File access and decoding: the BOM check, UTF-8 and local 8-bit decoding, `readLine` and JSON text parsing. The importers take whether the file opened, plus the decoded lines or the parsed document, or nothing if it did not parse. JSON numbers are integers.
- Creation timestamps (`createdAt`) of imported words.
- The database: SQL, row ids beyond a counter, and the lists `getDueWords` and `getAllWords` return. The lists are parameters. The card table is the `CardStore` object.
- Clocks: `QDateTime::currentDateTime` is the parameter `now`, in seconds. `addDays` adds 86400 seconds, so daylight-saving shifts are ignored.
- Randomness: every `std::shuffle` and `std::random_shuffle` takes its draws as a parameter. Nothing about their distribution is modelled.
- Floating point: doubles are reals, and rounding error is ignored. `std::exp` and `std::pow` are parameters; Fsrs.NextStability's contract assumes only their signs (Fsrs.RealSigns).
- Unicode case folding: only ASCII letters are folded when comparing and filtering case-insensitively.
- `QChar::isSpace` is modelled on the characters listed in Text.IsSpace.
- Text.LexLess and the case-insensitive sort compare by Unicode scalar value. `QString::compare` compares UTF-16 code units, so the two orders differ between a character above U+FFFF and one in U+E000 to U+FFFF.
- C++ `int` limits: `reps` and `lapses` are unbounded integers, so their 32-bit overflow is not modelled. Fsrs.NextInterval rounds to an unbounded integer; the source stores the rounded value in an `int`, which is undefined behaviour for stabilities above about 2.4e8, and the model does not capture that.
- Path handling: only '/' separates directories.
- Widgets and effects: the widget tree, style sheets, colours, animations, message boxes, beeps, text-to-speech, focus, and `roleNames` (a fixed table with no logic).
- Palette and style sheet contents: ThemeManager's palettes and sheets are abstracted to the `Style` they install. The `QApplication` font is recorded as the family and the point size. Whether the bundled font loads is a parameter.
- The choice mode's initial `m_correctOptionIndex`: the source leaves it uninitialised, and the TestView constructor takes it as a parameter.
- Quiz.TestView.OnCheckAnswer requires the current index to be in range. The source indexes the queue without a check, which is undefined behaviour when the test is over.
- Quiz.TestView.KeyPress states only that keys in spelling mode change nothing and that a key adds at most one point. It does not state the exact state after each key.
- Quiz.TestView.OnModeChanged states the mode and the reset of index and score. The rest of the new test is StartTest's contract.
- Quiz.TestView.OnModeChanged keeps the score bound only when the book has words, the mode is unchanged, or the question was not answered. With an empty book and a new mode, the old question's answered state survives the switch (TestView.cpp:147-152), and a digit key can then score it again through the hidden choice buttons.
- Quiz.TestView.OnChoiceClicked keeps the score bound only in choice mode, where its buttons are on screen.
- Study.StudyView.KeyPress states the rating case only as "the index moves on by one". The store update is ProcessRating's contract.
- A New card rated Hard or Good goes to state 2 (Review) at FsrsScheduler.cpp:47, with a due time of 5 or 10 minutes and no scheduled days. The standard FSRS scheduler would keep such a card in Learning. The model follows the code.
- When the book is empty, startTest assigns the empty list to the test queue before it returns (TestView.cpp:147-152), so it does not leave the old queue in place. The model follows the code.
- The CSV importer's CJK pattern (DictionaryParser.cpp:61) is written with `\u` escapes, which Qt's regular-expression engine rejects, so as written the test never matches. ParseCsv, CsvLine and CsvFieldAssignment use the intended test; Dictionary.CsvRecordAsWritten models the code as written (see Findings).
- toggleFavorite writes only the shown row, not the loaded copy (WordModel.cpp:83-87). The model keeps this, and WordList.ToggleThenClearFilter shows the effect.

## Findings

| source | as written | input that shows it | evidently intended | confidence | as-written member | corrected member |
|---|---|---|---|---|---|---|
| src/ui/TestView.cpp:96 | the answer field's Return key is connected to `onCheckAnswer` itself. After the first check, the submit button is rewired to `onNextQuestion`, but Return is not, so each further Return re-checks and re-scores the same question | a one-word test in spelling mode, with the right spelling typed and Return pressed twice: the score becomes 2 and the final screen reads "2 / 1" | Return acts like the submit button: it checks once, then moves to the next question | not executed | Quiz.ReturnTwiceScoresTwice | Quiz.SubmitRun |
| src/ui/ThemeManager.cpp:14 | the current theme starts as Light, and `applyTheme` returns early when asked for the current theme. On a light or unknown system scheme, the constructor's `updateSystemTheme` therefore installs nothing | start on a light system: the look stays Qt's default until the user picks Dark and then Light again | the theme the system asks for is installed at start-up whatever it is | not executed | Themes.LightStartUnstyled | Themes.ThemeManager.Started |
| src/core/DictionaryParser.cpp:61 | the pattern `[\u4e00-\u9fa5]` uses `\u` escapes, which the PCRE2 engine behind `QRegularExpression` rejects; an invalid pattern matches nothing, so a two-field line always puts its second field in the phonetic | the line `apple,苹果`: the word gets the phonetic "苹果" and no definition | the pattern `[\x{4e00}-\x{9fa5}]`, so a Chinese second field becomes the definition | not executed | Dictionary.CsvChineseGlossMisfiled | Dictionary.CsvFieldAssignment |
