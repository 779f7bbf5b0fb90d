# FreelyForms answer service, modelled in Dafny

FreelyForms lets an owner publish a form template (a *prefab*: named
groups of typed fields, each with optional validation rules) and collects
*answer groups* (submissions) against it. This project models the core
of the answer side:

- submitting an answer: the one-answer-per-user guard, the validation of
  a submission against its prefab (`processAnswer`), and the two
  per-field rules `MaxLengthRule` and `IsMultipleChoiceRule`;
- reading answers back: the listing of a prefab's submissions with its
  optional location filter and the attached display users
  (`getAnswerGroupByPrefabId`, `searchAnswerGroupsByLocationAndPrefab`),
  and the read of one submission with its type annotation
  (`getAnswerGroup`, `updateAnswerForm`, `updateFieldMultiple`);
- the Excel export: one sheet per field, sanitized sheet names, and the
  numbered data rows with their cell contents (`ExcelExportService`).

Java exceptions are values: `Outcome` (a `void` check that may throw) and
`Result` (a value or an error). Unchecked runtime exceptions that a
malformed stored value provokes (`ClassCastException`,
`NullPointerException`, `NumberFormatException`,
`IndexOutOfBoundsException`) are the `Crash` datatype; the service's own
exceptions are the `Error` datatype. Each loop of the source is a method
with a `while` loop proved equal to a left-fold specification function,
and the properties are proved about those functions.

Modules: `Results` (wrappers), `Values` (the untyped answer values that
Jackson produces and their `toString`), `Lexical` (the text grammars of
`BigDecimal`, `Integer.parseInt` and `yyyy-MM-dd` dates), `Forms` (prefab
and submission records), `ValidationRules`, `AnswerValidation`,
`Annotation`, `GeoSearch`, `AnswerStore` (the repository and the service
operations that use it) and `ExcelExport`.

The code behaves as follows, which a reader might not expect:

- the geolocation check only requires the keys `lat` and `lng`; their
  values are not checked, because `asDouble()` never throws;
- the location search appends a submission once per sub-group that holds
  a point in the zone, because its `break` leaves only the question loop;
- `getAnswerGroup` shows a non-guest submission under the name and email
  of the *requesting* user, not of the submitter;
- annotating a radio question twice fails, because the second pass casts
  the wrapped array to `String`;
- the search passes the stored point to the zone test as (lng, lat) while
  the test's parameters are (lat, lng); the zone test is a parameter, so
  the model keeps the argument order and proves nothing about distances.

## Model

Paths are relative to the repository root; `AnswerService.java`,
`ExcelExportService.java` and the rule classes are under
`src/main/java/com/utbm/da50/freelyform/`.

| member | source | states |
|---|---|---|
| Lexical.ParseInt | src/main/java/com/utbm/da50/freelyform/model/validationRules/MaxLengthRule.java:14 | `Integer.parseInt` succeeds iff the text is an optionally signed digit string whose value fits in 32 bits, and then yields that value |
| Lexical.ParseIntOfNatText | src/main/java/com/utbm/da50/freelyform/model/validationRules/MaxLengthRule.java:14 | parsing the decimal rendering of any int-range natural gives it back (round trip) |
| Lexical.DigitsValueOfNatText | src/main/java/com/utbm/da50/freelyform/model/validationRules/MaxLengthRule.java:14 | the digits of a rendered natural denote that natural |
| Lexical.DigitsAreBigDecimal | src/main/java/com/utbm/da50/freelyform/service/AnswerService.java:288 | every non-empty digit string, with or without a minus sign, is accepted by `new BigDecimal` |
| Lexical.FractionIsBigDecimal | src/main/java/com/utbm/da50/freelyform/service/AnswerService.java:288 | digits, a point and digits are accepted by `new BigDecimal` |
| Values.Get | src/main/java/com/utbm/da50/freelyform/service/AnswerService.java:422-423 | `Map.get` is null for an absent key and otherwise the value stored under that key |
| Values.ContainerTextBracket | src/main/java/com/utbm/da50/freelyform/service/AnswerService.java:288 | the `toString` of a list starts with `[` and of a map with `{`, so neither can be a number |
| ValidationRules.ValidateMaxLength | src/main/java/com/utbm/da50/freelyform/model/validationRules/MaxLengthRule.java:13-19 | an unparsable limit is a `NumberFormatException` before the input is looked at; a non-string input crashes; a string passes iff its length is at most the limit, else the too-long violation with that limit |
| ValidationRules.MaxLengthBoundary | src/main/java/com/utbm/da50/freelyform/model/validationRules/MaxLengthRule.java:16 | a string of exactly the limit's length passes and one character more fails |
| ValidationRules.CheckChoices | src/main/java/com/utbm/da50/freelyform/model/validationRules/IsMultipleChoiceRule.java:19-23 | the element loop passes iff every element is a string among the choices; otherwise it fails on the first bad element, with the null-options crash for a string |
| ValidationRules.ValidateMultipleChoice | src/main/java/com/utbm/da50/freelyform/model/validationRules/IsMultipleChoiceRule.java:15-24 | a non-list is rejected as not a list; a list passes iff all its elements are allowed choices |
| ValidationRules.MultipleChoiceIgnoresOrderAndRepetition | src/main/java/com/utbm/da50/freelyform/model/validationRules/IsMultipleChoiceRule.java:19-23 | two lists with the same elements are both accepted or both rejected, whatever their order or repetitions |
| ValidationRules.MultipleChoiceSubList | src/main/java/com/utbm/da50/freelyform/model/validationRules/IsMultipleChoiceRule.java:19-23 | any list drawn from the elements of an accepted list is accepted |
| ValidationRules.MultipleChoiceExamples | src/main/java/com/utbm/da50/freelyform/model/validationRules/IsMultipleChoiceRule.java:15-24 | with choices A and B: [A], [A, B] and [] pass, [C] fails, and the plain string A is not a list |
| ValidationRules.Lookup | src/main/java/com/utbm/da50/freelyform/model/validationRules/IsMultipleChoiceRule.java:27-29 | a validator is found for a rule type iff a registered validator reports that type, and the one found does |
| ValidationRules.RegistryKeyedByRuleType | src/main/java/com/utbm/da50/freelyform/model/validationRules/MaxLengthRule.java:22-24 | each rule class is found under the type it reports (MAX_LENGTH, IS_MULTIPLE_CHOICE); IS_RADIO has no validator |
| ValidationRules.ValidateRules | src/main/java/com/utbm/da50/freelyform/service/AnswerService.java:240-244 | a field's rules pass iff each rule passes; otherwise the result is the failure of the first failing rule |
| AnswerValidation.ValidateFieldAndQuestion | src/main/java/com/utbm/da50/freelyform/service/AnswerService.java:254-259 | passes iff the field label equals the question text, else the field-mismatch error |
| AnswerValidation.BigDecimalStart | src/main/java/com/utbm/da50/freelyform/service/AnswerService.java:288 | a text `new BigDecimal` accepts is non-empty and starts with a sign, a point or a digit |
| AnswerValidation.ValidateNumericAnswer | src/main/java/com/utbm/da50/freelyform/service/AnswerService.java:286-292 | passes iff the answer is a string or a number whose text is a decimal; booleans, lists and maps never pass; a null answer is an uncaught `NullPointerException`, any other failure is not-a-number |
| AnswerValidation.ValidateDateAnswer | src/main/java/com/utbm/da50/freelyform/service/AnswerService.java:300-307 | passes iff the answer is a `yyyy-MM-dd` string; a bad string is not-a-date; a non-string escapes as `ClassCastException` |
| AnswerValidation.ValidateGeolocationAnswer | src/main/java/com/utbm/da50/freelyform/service/AnswerService.java:315-338 | a map passes iff it has keys `lat` and `lng`; a string passes iff it parses to such an object; lists, numbers, booleans and null fail; every failure is not-a-geolocation |
| AnswerValidation.ValidateAnswerType | src/main/java/com/utbm/da50/freelyform/service/AnswerService.java:268-278 | TEXT needs a string, NUMBER a decimal, DATE a date string, GEOLOCATION coordinates; MULTIPLE_CHOICE is not checked; only a non-string DATE answer or a null NUMBER answer escapes with a non-validation error |
| AnswerValidation.ReRaise | src/main/java/com/utbm/da50/freelyform/service/AnswerService.java:242-243 | a rule's own exception becomes a validation error; a runtime exception escapes unchanged |
| AnswerValidation.CheckAnswerField | src/main/java/com/utbm/da50/freelyform/service/AnswerService.java:217-245 | label mismatch first; a null or empty-map answer passes iff the field is optional; otherwise the type check, then the rules, and it passes iff both pass |
| AnswerValidation.CheckFields | src/main/java/com/utbm/da50/freelyform/service/AnswerService.java:205-207 | the pair loop passes iff every pair passes; otherwise its result is that of the first failing pair |
| AnswerValidation.CheckAnswerGroup | src/main/java/com/utbm/da50/freelyform/service/AnswerService.java:189-208 | name mismatch first, then field-count mismatch; passes iff names and counts agree and every pair passes |
| AnswerValidation.CheckGroups | src/main/java/com/utbm/da50/freelyform/service/AnswerService.java:176-178 | the group loop passes iff every group passes; otherwise its result is that of the first failing group |
| AnswerValidation.CheckFormPrefab | src/main/java/com/utbm/da50/freelyform/service/AnswerService.java:163-179 | unknown prefab, then inactive, then group-count mismatch, in that order; passes iff the prefab is active and the submission has its shape with every pair accepted |
| AnswerValidation.AcceptedAnswersEveryLabel | src/main/java/com/utbm/da50/freelyform/service/AnswerService.java:163-208 | in an accepted submission every sub-group carries the name of the group at its position and every question the label of the field at its position |
| AnswerValidation.NumberExamples | src/main/java/com/utbm/da50/freelyform/service/AnswerService.java:286-292 | "42", "42.5", "-3" and the number 42.5 are numbers; "abc", "" and a list are not |
| AnswerValidation.NumberAccepted | src/main/java/com/utbm/da50/freelyform/service/AnswerService.java:288 | "42", "-3" and "42.5" are decimals |
| AnswerValidation.NumberRejected | src/main/java/com/utbm/da50/freelyform/service/AnswerService.java:288 | "abc" and "" are not decimals |
| AnswerValidation.DateExamples | src/main/java/com/utbm/da50/freelyform/service/AnswerService.java:300-307 | "2024-01-15" is a date; "2024/01/15", "15-01-2024" and "2024-1-15" are not; a number is a `ClassCastException` |
| AnswerValidation.GeolocationExamples | src/main/java/com/utbm/da50/freelyform/service/AnswerService.java:328-333 | a map with `lat` and `lng` passes, one without `lng` fails, and a non-numeric `lat` passes |
| AnswerValidation.OptionalNumberExample | src/main/java/com/utbm/da50/freelyform/service/AnswerService.java:232-239 | an optional NUMBER field accepts a null answer and rejects "not-a-number" as not a number |
| Annotation.UpdateFieldMultiple | src/main/java/com/utbm/da50/freelyform/service/AnswerService.java:387-392 | missing options are a `NullPointerException`; the question gets the field's choices; a radio answer must be a string or null and is wrapped into a one-element array, anything else is a `ClassCastException` |
| Annotation.AnnotateQuestion | src/main/java/com/utbm/da50/freelyform/service/AnswerService.java:361-367 | no field at the position is an index error; otherwise the question keeps its text and takes the field's type, and a multiple-choice question is then updated as above |
| Annotation.AnnotateQuestions | src/main/java/com/utbm/da50/freelyform/service/AnswerService.java:360-370 | a completed question loop keeps the number of questions |
| Annotation.AnnotateSubGroups | src/main/java/com/utbm/da50/freelyform/service/AnswerService.java:356-374 | a completed sub-group loop keeps the number of sub-groups |
| Annotation.QuestionsCrashPersists | src/main/java/com/utbm/da50/freelyform/service/AnswerService.java:360-370 | an exception for a prefix of the questions is the exception of the whole loop |
| Annotation.SubGroupsCrashPersists | src/main/java/com/utbm/da50/freelyform/service/AnswerService.java:356-374 | an exception for a prefix of the sub-groups is the exception of the whole loop |
| Annotation.QuestionsPointwise | src/main/java/com/utbm/da50/freelyform/service/AnswerService.java:360-370 | the question loop completes iff every position annotates, and then position b holds the annotation of question b |
| Annotation.AnnotatePointwise | src/main/java/com/utbm/da50/freelyform/service/AnswerService.java:347-378 | the annotation completes iff every (a, b) position annotates; then shapes and group names are kept and each question is annotated at its position |
| Annotation.AnnotationByPosition | src/main/java/com/utbm/da50/freelyform/service/AnswerService.java:347-392 | in an annotated submission each question has the type of the field at its position, multiple-choice questions its choices, radio answers are wrapped and all other answers are unchanged |
| Annotation.RadioAnnotationNotIdempotent | src/main/java/com/utbm/da50/freelyform/service/AnswerService.java:390 | annotating an already annotated submission with a radio question fails |
| Annotation.UpdateAnswerForm | src/main/java/com/utbm/da50/freelyform/service/AnswerService.java:347-378 | the nested loops with counters `a` and `b` compute exactly the annotation, including the exception that stops them |
| GeoSearch.AsMap | src/main/java/com/utbm/da50/freelyform/service/AnswerService.java:420-421 | the map cast succeeds exactly on a map and yields its entries; null is a `NullPointerException`, anything else a `ClassCastException` |
| GeoSearch.Coordinate | src/main/java/com/utbm/da50/freelyform/service/AnswerService.java:422-423 | the `(double)` cast succeeds exactly on a stored `Double`; null is a `NullPointerException`, anything else a `ClassCastException` |
| GeoSearch.QuestionHit | src/main/java/com/utbm/da50/freelyform/service/AnswerService.java:418-429 | only a question stored as GEOLOCATION can hit; its answer must be a map; a hit needs `lat` and `lng` as doubles and the zone test on (lng, lat) |
| GeoSearch.ScanNoHit | src/main/java/com/utbm/da50/freelyform/service/AnswerService.java:417-430 | the question loop finds nothing iff every question evaluates to no hit |
| GeoSearch.ScanFirstHit | src/main/java/com/utbm/da50/freelyform/service/AnswerService.java:417-430 | the question loop hits iff some question hits after only non-hits, so it stops at the first hit |
| GeoSearch.ScanCrashPersists | src/main/java/com/utbm/da50/freelyform/service/AnswerService.java:417-430 | an exception for a prefix of the questions is the exception of the loop |
| GeoSearch.ScanStaysHit | src/main/java/com/utbm/da50/freelyform/service/AnswerService.java:426 | after a hit, the remaining questions are not evaluated |
| GeoSearch.CopiesCrashPersists | src/main/java/com/utbm/da50/freelyform/service/AnswerService.java:415-432 | an exception for a prefix of the sub-groups is the exception of the sub-group loop |
| GeoSearch.FilterCrashPersists | src/main/java/com/utbm/da50/freelyform/service/AnswerService.java:413-434 | an exception for a prefix of the submissions is the exception of the search |
| GeoSearch.HitCount | src/main/java/com/utbm/da50/freelyform/service/AnswerService.java:415-432 | the number of sub-groups with a hitting question is at most the number of sub-groups, and positive iff some sub-group hits |
| GeoSearch.HitCountSnoc | src/main/java/com/utbm/da50/freelyform/service/AnswerService.java:415-432 | counting sub-groups front to back agrees with counting them in the loop's order, one sub-group at a time |
| GeoSearch.CopiesOfOneGroup | src/main/java/com/utbm/da50/freelyform/service/AnswerService.java:415-432 | one submission is appended only as itself, exactly once per sub-group that hits (so at most once per sub-group, and at least once iff one of its sub-groups hits) |
| GeoSearch.PicksExtend | src/main/java/com/utbm/da50/freelyform/service/AnswerService.java:413-434 | appending the copies of the next submission extends the ordered picks by its position only |
| GeoSearch.GeoFilterStep | src/main/java/com/utbm/da50/freelyform/service/AnswerService.java:413-434 | a completed search is the search of all but the last submission followed by the copies of the last |
| GeoSearch.GeoFilterPicks | src/main/java/com/utbm/da50/freelyform/service/AnswerService.java:405-437 | the search outputs only input submissions, in input order, and outputs submission i iff one of its sub-groups hits |
| GeoSearch.SubmissionListedTwice | src/main/java/com/utbm/da50/freelyform/service/AnswerService.java:426 | a submission with two sub-groups each holding a point in the zone is output twice |
| AnswerStore.AnswerRepository.constructor | src/main/java/com/utbm/da50/freelyform/service/AnswerService.java:29 | a new repository holds no submissions |
| AnswerStore.AnswerRepository.Save | src/main/java/com/utbm/da50/freelyform/service/AnswerService.java:50 | saving appends the submission after the stored ones and changes nothing else |
| AnswerStore.ValidateUniqueUserResponse | src/main/java/com/utbm/da50/freelyform/service/AnswerService.java:148-154 | a guest always passes; another user passes iff no submission of theirs to that prefab is stored; the error names prefab and user |
| AnswerStore.StoredUserRefused | src/main/java/com/utbm/da50/freelyform/service/AnswerService.java:148-154 | once a non-guest's submission is stored, every later uniqueness check for that user and prefab fails, whatever is stored after it |
| AnswerStore.ProcessAnswer | src/main/java/com/utbm/da50/freelyform/service/AnswerService.java:43-51 | the uniqueness guard, then the prefab check; on any error nothing is stored; on success the submission, stamped with the user and prefab, is appended and a second submission by the same non-guest user is refused |
| AnswerStore.ByPrefab | src/main/java/com/utbm/da50/freelyform/service/AnswerService.java:113 | the listing holds exactly the stored submissions of that prefab |
| AnswerStore.FindByPrefabIdAndId | src/main/java/com/utbm/da50/freelyform/service/AnswerService.java:69-72 | found iff a stored submission has that prefab and id, and what is found is such a stored submission |
| AnswerStore.QueryMode | src/main/java/com/utbm/da50/freelyform/service/AnswerService.java:102-108 | valid iff latitude, longitude and distance are all given or all absent; all absent lists unfiltered; all given makes the query from them |
| AnswerStore.DisplayUser | src/main/java/com/utbm/da50/freelyform/service/AnswerService.java:122-134 | a guest is shown as "Guest" with an empty email; another submitter must exist and is shown as "first last" with their email; an unknown submitter is an entity-not-found error |
| AnswerStore.AttachUsersPointwise | src/main/java/com/utbm/da50/freelyform/service/AnswerService.java:121-138 | the `peek` completes iff every submitter can be displayed, and then changes only each submission's user |
| AnswerStore.AttachCrashPersists | src/main/java/com/utbm/da50/freelyform/service/AnswerService.java:121-138 | an error for a prefix of the listed submissions is the error of the whole `peek` |
| AnswerStore.FoundOfPrefab | src/main/java/com/utbm/da50/freelyform/service/AnswerService.java:405-437 | the location search over a prefab returns only submissions of that prefab |
| AnswerStore.ListedAnswersOfPrefab | src/main/java/com/utbm/da50/freelyform/service/AnswerService.java:99-139 | every listed submission belongs to the prefab and carries a display user; without parameters the listing is all the prefab's submissions in order, differing only in the user |
| AnswerStore.ScanSubGroup | src/main/java/com/utbm/da50/freelyform/service/AnswerService.java:417-430 | the question loop with its casts and `break` computes the question-loop specification |
| AnswerStore.SearchAnswerGroupsByLocationAndPrefab | src/main/java/com/utbm/da50/freelyform/service/AnswerService.java:405-437 | the three nested loops compute the location filter of the prefab's submissions, whose order and membership `GeoFilterPicks` states |
| AnswerStore.PeekUsers | src/main/java/com/utbm/da50/freelyform/service/AnswerService.java:121-138 | the `peek` loop computes the user attachment of `AttachUsersPointwise` |
| AnswerStore.GetAnswerGroupByPrefabId | src/main/java/com/utbm/da50/freelyform/service/AnswerService.java:99-139 | the parameter rule, then the plain or filtered list, then the display users, as `ListedAnswersOfPrefab` describes |
| AnswerStore.ReaderView | src/main/java/com/utbm/da50/freelyform/service/AnswerService.java:74-80 | a single read shows a guest submission as "Guest" with an empty email and any other under the requesting user's name and email |
| AnswerStore.ReadShowsListedUserToSubmitter | src/main/java/com/utbm/da50/freelyform/service/AnswerService.java:74-80 | when the requester is the submitter, the single read and the listing show the same user |
| AnswerStore.ReadAnswer | src/main/java/com/utbm/da50/freelyform/service/AnswerService.java:61-87 | not owning is `NotOwner`; owning and no stored submission is `ResourceNotFound`; with one found, `PrefabNotFound` iff the prefab is missing; otherwise the result is exactly the annotation of the stored submission carrying the reader's view of its user, and an annotation failure escapes unchecked; a result keeps the stored ids, shape and that user |
| AnswerStore.GetAnswerGroup | src/main/java/com/utbm/da50/freelyform/service/AnswerService.java:61-87 | the read of one submission computes `ReadAnswer`, annotation included |
| ExcelExport.ReplaceForbidden | src/main/java/com/utbm/da50/freelyform/service/ExcelExportService.java:178 | keeps the length and turns exactly the characters `\ / ? * [ ] :` into `_` |
| ExcelExport.SanitizeSheetName | src/main/java/com/utbm/da50/freelyform/service/ExcelExportService.java:176-180 | the name is at most 31 characters, is a prefix of the replaced label, and holds no forbidden character |
| ExcelExport.SanitizeIdempotent | src/main/java/com/utbm/da50/freelyform/service/ExcelExportService.java:176-180 | sanitizing a sanitized name changes nothing |
| ExcelExport.LabelAnswers | src/main/java/com/utbm/da50/freelyform/service/ExcelExportService.java:136-137 | a sub-group contributes at most one answer per question |
| ExcelExport.LabelAnswersOfLabel | src/main/java/com/utbm/da50/freelyform/service/ExcelExportService.java:136-137 | a sub-group contributes nothing iff none of its questions has the label, and each answer it contributes is that of a question with the label |
| ExcelExport.FindFieldAnswer | src/main/java/com/utbm/da50/freelyform/service/ExcelExportService.java:132-140 | nothing is found iff no question matches; otherwise the result is the first matching answer, and a `NullPointerException` iff that first answer is null |
| ExcelExport.FirstLabelAnswer | src/main/java/com/utbm/da50/freelyform/service/ExcelExportService.java:136-138 | within a sub-group the first question with the label is the one taken |
| ExcelExport.FirstMatch | src/main/java/com/utbm/da50/freelyform/service/ExcelExportService.java:132-140 | the stream is empty iff no question of a same-named sub-group has the label; otherwise its head is the answer of the first match in sub-group then question order |
| ExcelExport.FindFieldAnswerIsFirstMatch | src/main/java/com/utbm/da50/freelyform/service/ExcelExportService.java:132-140 | the field answer is absent iff no question of a same-named sub-group has the label; otherwise it is the first match in sub-group then question order, or a `NullPointerException` when that answer is null |
| ExcelExport.ElementTexts | src/main/java/com/utbm/da50/freelyform/service/ExcelExportService.java:164-166 | the `toString` of each element, in order; a null element is a `NullPointerException` |
| ExcelExport.CellFor | src/main/java/com/utbm/da50/freelyform/service/ExcelExportService.java:142-174 | null is the empty text; NUMBER is a numeric cell; a multiple-choice list is its element texts joined by ", "; everything else is its `toString` |
| ExcelExport.CellExamples | src/main/java/com/utbm/da50/freelyform/service/ExcelExportService.java:160-170 | [Option1, Option2] shows as "Option1, Option2", [A] as "A", [] as "", a list with null crashes, a text as itself, null as "" |
| ExcelExport.RowFor | src/main/java/com/utbm/da50/freelyform/service/ExcelExportService.java:74-78 | a row needs a display user; it shows the name, the email or "N/A" when empty, the submission time and the answer cell, under the given number |
| ExcelExport.RowsCrashPersists | src/main/java/com/utbm/da50/freelyform/service/ExcelExportService.java:71-80 | an exception for a prefix of the submissions is the exception of the whole sheet |
| ExcelExport.RowsLaidOutSkip | src/main/java/com/utbm/da50/freelyform/service/ExcelExportService.java:73 | a submission that does not answer the field adds no row |
| ExcelExport.RowsLaidOutAppend | src/main/java/com/utbm/da50/freelyform/service/ExcelExportService.java:73-74 | a submission that answers the field adds its row under the next number |
| ExcelExport.DataRowsLayout | src/main/java/com/utbm/da50/freelyform/service/ExcelExportService.java:70-80 | row k is numbered 9 + k and shows the k-th answering submission in order; every answering submission has a row |
| ExcelExport.PopulateFieldSheet | src/main/java/com/utbm/da50/freelyform/service/ExcelExportService.java:53-86 | the header row and the loop with its `rowNum` counter compute the field's sheet, whose rows `DataRowsLayout` describes |
| ExcelExport.GroupSheetNames | src/main/java/com/utbm/da50/freelyform/service/ExcelExportService.java:40-44 | a group gives one sheet per field, in order, named after the field's sanitized label |
| ExcelExport.SheetPerField | src/main/java/com/utbm/da50/freelyform/service/ExcelExportService.java:39-45 | the workbook has one sheet per field of the prefab, in group then field order, each named after the sanitized label |
| ExcelExport.ThreeFieldsThreeSheets | src/test/java/com/utbm/da50/freelyform/service/ExcelExportServiceTest.java:127-170 | a group of three fields gives three sheets named after them in order |
| ExcelExport.SingleFieldWorkbook | src/main/java/com/utbm/da50/freelyform/service/ExcelExportService.java:39-45 | a prefab of one group with one field gives exactly that field's sheet |
| ExcelExport.OneAnswerWorkbook | src/test/java/com/utbm/da50/freelyform/service/ExcelExportServiceTest.java:82-124 | one text field and one submission give one sheet "Test Field" with the header at row 8 and the single data row 9 showing user, email, time and answer |
| ExcelExport.GenerateExcelForPrefab | src/main/java/com/utbm/da50/freelyform/service/ExcelExportService.java:31-51 | the group and field loops compute the workbook that `SheetPerField` describes |
| ExcelExport.GroupSheetsCrashPersists | src/main/java/com/utbm/da50/freelyform/service/ExcelExportService.java:40-44 | an exception for a prefix of a group's fields is the exception of that group |
| ExcelExport.WorkbookCrashPersists | src/main/java/com/utbm/da50/freelyform/service/ExcelExportService.java:39-45 | an exception for a prefix of the groups is the exception of the export |

## Left out

- Distances: `isPointWithinZone` (the haversine formula, AnswerService.java:449-469) is floating-point trigonometry; the model takes the zone test as a parameter and keeps the swapped (lng, lat) argument order of the call at line 424. Coordinates are passed as the text of the stored `Double`.
- ExcelExport.CellFor: a NUMBER cell keeps the answer value; the `doubleValue()`/`Double.parseDouble` conversion and its fallback to text (ExcelExportService.java:150-158) are floating point and are not modelled.
- Concurrency: the uniqueness check and the save in `processAnswer` are not atomic in the source; the model runs them as one sequential step.
- AnswerStore.AnswerRepository.Save: the store's id generation and creation timestamp are not modelled; the submission is stored as given.
- AnswerStore.ByPrefab: `findByPrefabId` returns an `Optional` whose empty case (`ResourceNotFoundException`, AnswerService.java:113-116 and 406-409) is not modelled; the repository is taken to always return a list, possibly empty.
- JSON: Jackson's `readTree` is a parameter (`JsonReader`); serialising a non-string answer and reading it back is taken to keep the value.
- Lexical.ParseInt: this and the `BigDecimal` grammar cover ASCII digits only; Unicode digits and the exponent range limit of `BigDecimal` are not modelled.
- ValidationRules.ValidateMaxLength: lengths are counted in Dafny characters, not UTF-16 code units.
- ExcelExport.SanitizeSheetName: the 31 limit is counted in Dafny characters, not UTF-16 code units; a label with characters outside the Basic Multilingual Plane is cut at a different place than `length()`/`substring` cut it, and the model never splits a surrogate pair as the source can.
- Dates: the default resolver clamps a day 29-31 past the end of its month instead of rejecting it, so `IsIsoDate` accepts days 01-31 in every month; the resolved date itself is not computed.
- Excel library behaviour: the check for duplicate or otherwise invalid sheet names, the metadata rows 0-4 and spacing rows, cell styles, column widths and the byte serialisation of the workbook (ExcelExportService.java:47-49, 55-60, 82-130) are not modelled.
- Nulls: the null checks on sub-group and question lists (AnswerService.java:414, 416) and null list, email or timestamp fields elsewhere are not modelled; every list is present and every string non-null. The `Boolean` flags are plain booleans: a null `optional` (unboxed at AnswerService.java:224 and 232, shown as "N/A" at ExcelExportService.java:124) and a null `isActive` (set at Prefab.java:56, unboxed at AnswerService.java:166), which would throw a `NullPointerException` in the service, are not modelled.
- Radio rule lookup: `updateFieldMultiple` asks whether the field's rule list contains `TypeRule.IS_RADIO` (AnswerService.java:389); `Field.java` is not part of this model, and the model reads the test as "some rule of the field has type IS_RADIO". If that list holds rule objects rather than rule types, `contains` is always false in the source and no radio answer is ever wrapped.
- The registry and dispatch of `FieldService.validateFieldsRules` are not part of this model's source; they are modelled as lookup by the rule type each validator reports, applying the rules in order and stopping at the first failure, with unregistered types passing.
- Field options: `Field.java` is not part of this model; the options object and its choice list are one optional list, so a present options object with a null choice list is not distinguished.
- Answer arrays: the `String[]` that `updateFieldMultiple` creates and the `List` that Jackson creates are both `List` values; the export therefore treats a null element of either as a `NullPointerException`, while `String.join` on a `String[]` would print "null".
- Lookups: prefabs and users are maps (`getPrefabById`, `getUserById`; a missing key is the not-found exception); `doesUserOwnPrefab` is the parameter `owns`. The null check on the user at AnswerService.java:130 is unreachable because `getUserById` throws.
- Export inputs: `generateExcelForPrefab` receives the prefab and its submissions as parameters; the single-argument `getPrefabById(prefabId)` and `getAnswerGroupByPrefabId(prefabId)` it calls are not part of this model.
- Update in place and aliasing: `updateAnswerForm`, `updateFieldMultiple` and the `peek` mutate the objects they are given (including the stored ones); the model computes new values, so sharing between the stored and the returned submission is not captured.
