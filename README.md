# Weka runner, modelled in Dafny

The Weka runner is the program that runs inside the ML container. `main` reads a command
(`train` or `predict`) and two directories, DATA_DIR and MODEL_DIR, from the environment.
It then runs the trainer or the predictor on them and exits with status 1 on any failure.

- **The trainer** reads `params.json` and `dataset.csv` and keeps only the requested
  columns. It resolves the target column and makes it the class, fixes the option string,
  and then trains a classifier, a regressor or a clusterer. Supervised learners get a 70/30
  split of the shuffled rows. It records the model and its metrics.
- **The predictor** reads `params.json`, `model.ser`, the optional `header.ser` and
  `test_data.csv`. It shapes the test data the way training did, adding a placeholder
  target column when the data lacks one. It then predicts one label, value or cluster per
  row and writes `predictions.csv` and the prediction metadata.

The model has these modules:

- `Wrappers`: Option and Result, plus the Java exceptions the runner can end in.
- `JavaText`: the parts of `java.lang.String` and `Integer` the runner relies on: `trim`,
  ASCII `toLowerCase`, `parseInt`, `String.valueOf(int)`, `split(",")`, `String.join`,
  `contains`, `replace`, and the wrap-around of `int - 1`.
- `Weka`: datasets (`Instances`) as values, the attribute lookup by name, and the Remove
  filter.
- `ColumnSelection`: the column-selection steps the trainer and the predictor share.
- `Contract`: `params.json` access and the case-insensitive algorithm-type dispatch.
- `WekaTrainer`, `WekaPredictor`, `WekaRunner`: the three classes of the runner.

Things Weka or the JVM compute and the runner only consumes are parameters of the model:

- the row order of `randomize(new Random(1))` and the 70% cut;
- the value list NumericToNominal derives and the label it gives each number;
- the classifier's and clusterer's answers;
- `Double.parseDouble`;
- what is on disk and in the environment.

## Model

| member | source | states |
|---|---|---|
| JavaText.Dec32 | weka-runner/src/main/java/com/cloud_ml_app_thesis/weka/WekaTrainer.java:342 | `parseInt(..) - 1` stays a Java int; Integer.MIN_VALUE wraps to MAX_VALUE |
| JavaText.Trim | weka-runner/src/main/java/com/cloud_ml_app_thesis/weka/WekaTrainer.java:321 | the result is a contiguous piece of the input with only whitespace (chars up to U+0020) around it and none at either end |
| JavaText.ToLower | weka-runner/src/main/java/com/cloud_ml_app_thesis/weka/WekaRunner.java:27 | same length; every char is mapped by the ASCII lower-case mapping |
| JavaText.ToLowerIdempotent | weka-runner/src/main/java/com/cloud_ml_app_thesis/weka/WekaRunner.java:27 | lower-casing twice is lower-casing once |
| JavaText.ParseInt | weka-runner/src/main/java/com/cloud_ml_app_thesis/weka/WekaTrainer.java:342 | a successful parse yields a value inside the Java int range |
| JavaText.DigitsValueSpec | weka-runner/src/main/java/com/cloud_ml_app_thesis/weka/WekaTrainer.java:342 | a digit string has a value exactly when every char is an ASCII digit |
| JavaText.ParseIntSpec | weka-runner/src/main/java/com/cloud_ml_app_thesis/weka/WekaTrainer.java:342 | `parseInt` gives v exactly when the text is an optional sign followed by at least one digit, its digits denote v with that sign, and v is a Java int |
| JavaText.ParseIntExamples | weka-runner/src/main/java/com/cloud_ml_app_thesis/weka/WekaTrainer.java:342 | "", "-" and "1a" are refused; "+7" and "007" give 7 and "-5" gives -5 |
| JavaText.ParseIntToString | weka-runner/src/main/java/com/cloud_ml_app_thesis/weka/WekaTrainer.java:280 | `parseInt` reads back every int that `String.valueOf` writes |
| JavaText.IntToStringInjective | weka-runner/src/main/java/com/cloud_ml_app_thesis/weka/WekaPredictor.java:270 | two ints with the same rendering are equal |
| JavaText.Split | weka-runner/src/main/java/com/cloud_ml_app_thesis/weka/WekaTrainer.java:341 | no piece of `split(",")` contains a comma |
| JavaText.JoinDropTrailing | weka-runner/src/main/java/com/cloud_ml_app_thesis/weka/WekaTrainer.java:341 | joining the pieces with the trailing empty ones removed gives a prefix of the joined text, followed only by commas |
| JavaText.SplitSpec | weka-runner/src/main/java/com/cloud_ml_app_thesis/weka/WekaTrainer.java:341 | a text without a comma is one piece, itself; otherwise the last piece is not empty (or there is none), and joining the pieces back gives the text without its trailing commas |
| JavaText.SplitExamples | weka-runner/src/main/java/com/cloud_ml_app_thesis/weka/WekaTrainer.java:341 | "" gives [""], "1" gives ["1"], "1,2," gives ["1","2"], "," gives [], ",1" gives ["","1"], "3,1" and "1,1" give their two numbers in order |
| JavaText.SplitJoin | weka-runner/src/main/java/com/cloud_ml_app_thesis/weka/WekaPredictor.java:305-326 | splitting a comma-joined line gives back its parts when no part holds a comma and the last is not empty |
| JavaText.SplitJoinAny | weka-runner/src/main/java/com/cloud_ml_app_thesis/weka/WekaPredictor.java:305-326 | the same for a single part, which may be empty |
| JavaText.Contains | weka-runner/src/main/java/com/cloud_ml_app_thesis/weka/WekaTrainer.java:405 | true exactly when the text occurs at some position |
| JavaText.Replace | weka-runner/src/main/java/com/cloud_ml_app_thesis/weka/WekaTrainer.java:406-407 | a text in which the searched string does not occur comes back unchanged |
| JavaText.ReplaceEmits | weka-runner/src/main/java/com/cloud_ml_app_thesis/weka/WekaTrainer.java:406-407 | wherever the searched string occurs, the result holds the replacement |
| JavaText.ReplaceWhole | weka-runner/src/main/java/com/cloud_ml_app_thesis/weka/WekaTrainer.java:406-407 | a text that is exactly the searched string becomes the replacement |
| Weka.IndexOf | weka-runner/src/main/java/com/cloud_ml_app_thesis/weka/WekaTrainer.java:380-382 | `attribute(name)` is null exactly when no attribute has the name; otherwise it is the first position holding it |
| Weka.Project | weka-runner/src/main/java/com/cloud_ml_app_thesis/weka/WekaTrainer.java:369-376 | the inverted Remove filter keeps exactly the listed columns, in the order of the list (which names no column twice), and every row restricted to them; the result is a valid dataset with no class |
| Weka.DistinctBound | weka-runner/src/main/java/com/cloud_ml_app_thesis/weka/WekaTrainer.java:369-376 | a list of distinct positions below n has at most n entries, so the filter never keeps more columns than the data has |
| Weka.ProjectAll | weka-runner/src/main/java/com/cloud_ml_app_thesis/weka/WekaTrainer.java:369-376 | keeping every column in order leaves the dataset unchanged |
| ColumnSelection.SelectedIndicesFails | weka-runner/src/main/java/com/cloud_ml_app_thesis/weka/WekaTrainer.java:341-348 | the index list fails exactly when some entry is not an int, and then with NumberFormatException for the first such entry |
| ColumnSelection.SelectedIndicesMembers | weka-runner/src/main/java/com/cloud_ml_app_thesis/weka/WekaTrainer.java:341-348 | a list that parses holds only in-range positions, and position k exactly when some entry denotes k |
| ColumnSelection.SelectedIndicesLast | weka-runner/src/main/java/com/cloud_ml_app_thesis/weka/WekaTrainer.java:341-348 | each further entry appends its 0-based position when it is an int in 1..n, and nothing otherwise |
| ColumnSelection.SelectedIndicesRepeats | weka-runner/src/main/java/com/cloud_ml_app_thesis/weka/WekaPredictor.java:466-473 | the collected positions hold no repeat exactly when no two entries name the same column |
| ColumnSelection.SelectedIndicesOrder | weka-runner/src/main/java/com/cloud_ml_app_thesis/weka/WekaPredictor.java:466-473 | without repeats, the positions appear in the order the entries name them |
| ColumnSelection.TwoEntries | weka-runner/src/main/java/com/cloud_ml_app_thesis/weka/WekaPredictor.java:466-473 | two in-range entries a+1 and b+1 collect as [a, b], in that order |
| ColumnSelection.MalformedTokenFails | weka-runner/src/main/java/com/cloud_ml_app_thesis/weka/WekaTrainer.java:342 | one entry that is not an int makes the whole list fail |
| ColumnSelection.SelectedNamesSpec | weka-runner/src/main/java/com/cloud_ml_app_thesis/weka/WekaTrainer.java:334-349 | a null or empty list selects every column; otherwise the list fails iff an entry is not an int, and column k is selected iff an entry denotes it |
| ColumnSelection.NamesOfEntriesSpec | weka-runner/src/main/java/com/cloud_ml_app_thesis/weka/WekaTrainer.java:341-348 | the same property for any list of parsed entries |
| ColumnSelection.CollectColumnNames | weka-runner/src/main/java/com/cloud_ml_app_thesis/weka/WekaTrainer.java:332-349 | the loop computes the selected names |
| ColumnSelection.ListColumnNames | weka-runner/src/main/java/com/cloud_ml_app_thesis/weka/WekaTrainer.java:341-348 | the loop over the split list computes the names its entries denote |
| ColumnSelection.CollectListed | weka-runner/src/main/java/com/cloud_ml_app_thesis/weka/WekaTrainer.java:341-348 | the loop body over parsed entries: same result, stopping at the first bad entry |
| ColumnSelection.IndicesNamed | weka-runner/src/main/java/com/cloud_ml_app_thesis/weka/WekaTrainer.java:362-367 | strictly increasing in-range positions; position k is kept iff its name was chosen |
| ColumnSelection.IndicesNamedExample | weka-runner/src/main/java/com/cloud_ml_app_thesis/weka/WekaTrainer.java:362-367 | choosing "c" then "a" among columns a, b, c keeps positions 0 and 2, in dataset order |
| ColumnSelection.IndicesToKeep | weka-runner/src/main/java/com/cloud_ml_app_thesis/weka/WekaTrainer.java:362-367 | the loop computes exactly those positions |
| ColumnSelection.KeepColumnsIsProject | weka-runner/src/main/java/com/cloud_ml_app_thesis/weka/WekaTrainer.java:370 | the size shortcut around the filter changes nothing: skipping the filter when every column is kept equals filtering |
| ColumnSelection.KeepColumnsKeeps | weka-runner/src/main/java/com/cloud_ml_app_thesis/weka/WekaTrainer.java:369-376 | the filtered data is valid, has no class, and holds exactly the kept columns in order with every row |
| ColumnSelection.WithClassIndex | weka-runner/src/main/java/com/cloud_ml_app_thesis/weka/WekaTrainer.java:378-391 | the class is the target's column when the data has it, else the last column; columns and rows are untouched |
| Contract.TypeNamedSpec | weka-runner/src/main/java/com/cloud_ml_app_thesis/weka/WekaTrainer.java:104-115 | a lower-cased text names a type exactly when it is that type's lower-case name |
| Contract.ParseAlgorithmTypeSpec | weka-runner/src/main/java/com/cloud_ml_app_thesis/weka/WekaPredictor.java:134-145 | the dispatch picks type t iff the value spells t in some case; any other value fails with "Unknown algorithm type" |
| Contract.ParseLowered | weka-runner/src/main/java/com/cloud_ml_app_thesis/weka/WekaTrainer.java:92 | each type's name in any case is accepted, and the clustering test holds exactly for the clustering type |
| WekaTrainer.MatchAt | weka-runner/src/main/java/com/cloud_ml_app_thesis/weka/WekaTrainer.java:411 | a match of `(\d+\.\d+)[Ee](?![+-]?\d)` starts at a digit, ends on an exponent letter after a digit, and is not followed by a signed digit |
| WekaTrainer.MatchAtSpec | weka-runner/src/main/java/com/cloud_ml_app_thesis/weka/WekaTrainer.java:411 | the scanner reports a match from p to the letter at e exactly when digits, a dot, digits and an exponent letter run from p to e and no signed digit follows |
| WekaTrainer.ScanReaches | weka-runner/src/main/java/com/cloud_ml_app_thesis/weka/WekaTrainer.java:411 | the left-to-right search arrives at every position that no match met on the way runs past |
| WekaTrainer.IncompleteExponentDropped | weka-runner/src/main/java/com/cloud_ml_app_thesis/weka/WekaTrainer.java:411 | after a maximal `\d+\.\d+`, an exponent letter with no signed digit after it is dropped and the digits before it are kept |
| WekaTrainer.ExponentLetterKept | weka-runner/src/main/java/com/cloud_ml_app_thesis/weka/WekaTrainer.java:411 | an exponent letter followed by a signed digit is kept in place |
| WekaTrainer.DigitFreeKept | weka-runner/src/main/java/com/cloud_ml_app_thesis/weka/WekaTrainer.java:411 | a digit-free text that starts with neither a dot nor an exponent letter comes through the stripping whole |
| WekaTrainer.StripKeepsOtherChars | weka-runner/src/main/java/com/cloud_ml_app_thesis/weka/WekaTrainer.java:411 | the `replaceAll` removes exponent letters and nothing else |
| WekaTrainer.StripUnchangedIff | weka-runner/src/main/java/com/cloud_ml_app_thesis/weka/WekaTrainer.java:411 | the options are left unchanged exactly when the pattern matches nowhere |
| WekaTrainer.NoDigitsUnchanged | weka-runner/src/main/java/com/cloud_ml_app_thesis/weka/WekaTrainer.java:411 | options without digits are left unchanged |
| WekaTrainer.StripIncompleteExample | weka-runner/src/main/java/com/cloud_ml_app_thesis/weka/WekaTrainer.java:410-411 | "1.0E" becomes "1.0" |
| WekaTrainer.StripCompleteExample | weka-runner/src/main/java/com/cloud_ml_app_thesis/weka/WekaTrainer.java:411 | "1.0E5" is kept |
| WekaTrainer.StripSignedExample | weka-runner/src/main/java/com/cloud_ml_app_thesis/weka/WekaTrainer.java:411 | "2.5e-3" is kept |
| WekaTrainer.FixNestedOptions | weka-runner/src/main/java/com/cloud_ml_app_thesis/weka/WekaTrainer.java:400-414 | null stays null and "" stays "" |
| WekaTrainer.FixNestedOptionsPlain | weka-runner/src/main/java/com/cloud_ml_app_thesis/weka/WekaTrainer.java:401-411 | null and "" pass through; text lacking either distance part, or the whole unquoted option, is only stripped of incomplete exponents |
| WekaTrainer.FixNestedOptionsQuotesInside | weka-runner/src/main/java/com/cloud_ml_app_thesis/weka/WekaTrainer.java:405-411 | wherever the unquoted distance option occurs, the fixed options hold the quoted one |
| WekaTrainer.FixNestedOptionsQuotes | weka-runner/src/main/java/com/cloud_ml_app_thesis/weka/WekaTrainer.java:405-408 | the unquoted EuclideanDistance option comes out quoted |
| WekaTrainer.TrainTargetOfSpec | weka-runner/src/main/java/com/cloud_ml_app_thesis/weka/WekaTrainer.java:317-328 | a target that is not an int is taken as a name; a number names its 1-based column, or nothing when out of range |
| WekaTrainer.SelectColumns | weka-runner/src/main/java/com/cloud_ml_app_thesis/weka/WekaTrainer.java:314-394 | the loop-and-filter method computes the trainer's selection |
| WekaTrainer.SelectNamed | weka-runner/src/main/java/com/cloud_ml_app_thesis/weka/WekaTrainer.java:331-394 | the same once the target is resolved |
| WekaTrainer.NarrowColumns | weka-runner/src/main/java/com/cloud_ml_app_thesis/weka/WekaTrainer.java:361-391 | filtering and class setting compute the narrowed dataset |
| WekaTrainer.SelectWithClassFails | weka-runner/src/main/java/com/cloud_ml_app_thesis/weka/WekaTrainer.java:339-348 | selection fails exactly when a non-empty list has an entry that is not an int |
| WekaTrainer.SelectWithClassColumns | weka-runner/src/main/java/com/cloud_ml_app_thesis/weka/WekaTrainer.java:331-376 | the kept columns are, in dataset order, exactly those the list selects plus the target's; every row is kept |
| WekaTrainer.SelectWithClassClass | weka-runner/src/main/java/com/cloud_ml_app_thesis/weka/WekaTrainer.java:378-391 | the class is the target's column when the dataset has it, else the last kept column |
| WekaTrainer.NarrowClass | weka-runner/src/main/java/com/cloud_ml_app_thesis/weka/WekaTrainer.java:353-391 | when the target's name is among the kept names, the target stays the class after filtering |
| WekaTrainer.PickMultiset | weka-runner/src/main/java/com/cloud_ml_app_thesis/weka/WekaTrainer.java:143 | which rows a pick yields, with multiplicity, depends only on the multiset of positions |
| WekaTrainer.SplitCoversEveryRow | weka-runner/src/main/java/com/cloud_ml_app_thesis/weka/WekaTrainer.java:143-146 | train and test sets are the two halves of the shuffled rows; together they hold every row exactly once |
| WekaTrainer.CollectClassLabels | weka-runner/src/main/java/com/cloud_ml_app_thesis/weka/WekaTrainer.java:186-189 | `classLabels` lists every class value, in order |
| WekaTrainer.CollectAssignments | weka-runner/src/main/java/com/cloud_ml_app_thesis/weka/WekaTrainer.java:277-281 | one "Instance i assigned to cluster c" entry per instance, in instance order |
| WekaTrainer.ParseAssignmentLine | weka-runner/src/main/java/com/cloud_ml_app_thesis/weka/WekaTrainer.java:280 | every assignment entry reads back as its instance and cluster |
| WekaTrainer.AssignmentLinesDistinct | weka-runner/src/main/java/com/cloud_ml_app_thesis/weka/WekaTrainer.java:280 | entries for different instances differ |
| WekaTrainer.Prepared | weka-runner/src/main/java/com/cloud_ml_app_thesis/weka/WekaTrainer.java:86-94 | the prepared data is valid, keeps every row, and has no class for clustering |
| WekaTrainer.PrepareData | weka-runner/src/main/java/com/cloud_ml_app_thesis/weka/WekaTrainer.java:86-94 | the method computes the prepared data |
| WekaTrainer.NominalClass | weka-runner/src/main/java/com/cloud_ml_app_thesis/weka/WekaTrainer.java:133-139 | NumericToNominal makes the class nominal with its value list and turns each class number into its label; the other columns and the row count stay |
| WekaTrainer.Learn | weka-runner/src/main/java/com/cloud_ml_app_thesis/weka/WekaTrainer.java:104-281 | it fails exactly for a supervised type without a class. Supervised types train on the first `trainSize` shuffled rows and test on the rest; classification shuffles the data after a numeric class was made nominal. Classification records the class values; clustering sees every row and records one assignment entry per row |
| WekaTrainer.Train | weka-runner/src/main/java/com/cloud_ml_app_thesis/weka/WekaTrainer.java:49-127 | failures come in the source's order: params.json, algorithmClassName, algorithmType, dataset.csv, selection, unknown type, missing class; it succeeds exactly when none of them occurs. On success the result records the algorithm, the fixed options, the selected data, the split and the metrics |
| WekaPredictor.PredictTargetOfSpec | weka-runner/src/main/java/com/cloud_ml_app_thesis/weka/WekaPredictor.java:345-366 | a given target always resolves to a name: itself, its 1-based column, or the placeholder name when out of range |
| WekaPredictor.TargetResolutionsAgree | weka-runner/src/main/java/com/cloud_ml_app_thesis/weka/WekaPredictor.java:345-366 | prediction and training resolve a target alike, except that an out-of-range number gets the placeholder name at prediction |
| WekaPredictor.WithPlaceholder | weka-runner/src/main/java/com/cloud_ml_app_thesis/weka/WekaPredictor.java:421-435 | the dataset with the placeholder column stays valid (its name is new) and has no class; PlaceholderKeeps states what it holds |
| WekaPredictor.Padded | weka-runner/src/main/java/com/cloud_ml_app_thesis/weka/WekaPredictor.java:409-435 | the filtered and padded data is valid, has no class yet, and keeps every row |
| WekaPredictor.EnsureTarget | weka-runner/src/main/java/com/cloud_ml_app_thesis/weka/WekaPredictor.java:341-456 | a successful selection is valid and keeps every row |
| WekaPredictor.SelectColumnsAndEnsureTarget | weka-runner/src/main/java/com/cloud_ml_app_thesis/weka/WekaPredictor.java:341-456 | the loop-and-filter method computes that selection |
| WekaPredictor.PadColumns | weka-runner/src/main/java/com/cloud_ml_app_thesis/weka/WekaPredictor.java:409-435 | filtering then padding computes the padded data |
| WekaPredictor.AddPlaceholder | weka-runner/src/main/java/com/cloud_ml_app_thesis/weka/WekaPredictor.java:421-435 | `insertAttributeAt` and `setMissing` on every row compute the placeholder column |
| WekaPredictor.SetClass | weka-runner/src/main/java/com/cloud_ml_app_thesis/weka/WekaPredictor.java:437-446 | sets the class to the target's column or the last one |
| WekaPredictor.PaddedKeeps | weka-runner/src/main/java/com/cloud_ml_app_thesis/weka/WekaPredictor.java:409-435 | the padded data holds the chosen columns in order, then the placeholder exactly when the target names no column |
| WekaPredictor.PlaceholderKeeps | weka-runner/src/main/java/com/cloud_ml_app_thesis/weka/WekaPredictor.java:421-435 | appending the placeholder keeps the filtered columns and rows and adds the pad |
| WekaPredictor.EnsureTargetFails | weka-runner/src/main/java/com/cloud_ml_app_thesis/weka/WekaPredictor.java:369-386 | selection fails exactly when a non-empty list has an entry that is not an int |
| WekaPredictor.EnsureTargetColumns | weka-runner/src/main/java/com/cloud_ml_app_thesis/weka/WekaPredictor.java:369-435 | kept columns are exactly those the list selects plus the target's, in order; the placeholder comes last exactly when the target is absent |
| WekaPredictor.ChosenSelects | weka-runner/src/main/java/com/cloud_ml_app_thesis/weka/WekaPredictor.java:369-386 | a column's name is selected exactly when the list selects that column |
| WekaPredictor.EnsureTargetClass | weka-runner/src/main/java/com/cloud_ml_app_thesis/weka/WekaPredictor.java:437-446 | a given target is always the class, its own column or the placeholder; without one the class is the last column |
| WekaPredictor.ClassOfPadded | weka-runner/src/main/java/com/cloud_ml_app_thesis/weka/WekaPredictor.java:437-446 | on padded data, setting the class finds the target among the kept columns or at the placeholder |
| WekaPredictor.ClusterData | weka-runner/src/main/java/com/cloud_ml_app_thesis/weka/WekaPredictor.java:118-126 | clustering data is valid, keeps every row and has no class |
| WekaPredictor.SelectClusterColumns | weka-runner/src/main/java/com/cloud_ml_app_thesis/weka/WekaPredictor.java:461-491 | the method computes the clustering selection, including the refusal of a column listed twice |
| WekaPredictor.CollectIndices | weka-runner/src/main/java/com/cloud_ml_app_thesis/weka/WekaPredictor.java:466-473 | the loop computes the in-range positions in list order, failing at the first entry that is not an int |
| WekaPredictor.ClusterOfEntriesSpec | weka-runner/src/main/java/com/cloud_ml_app_thesis/weka/WekaPredictor.java:461-491 | an entry that is not an int fails with NumberFormatException for the first such entry. Otherwise it fails, with the non-unique-names error, exactly when two entries name the same column. When no entry names a column the data is returned whole. Otherwise the result holds exactly the named columns, each once, in the order the entries name them, with every row |
| WekaPredictor.ClusterOrderExample | weka-runner/src/main/java/com/cloud_ml_app_thesis/weka/WekaPredictor.java:461-491 | on columns a, b, c the entries 3 and 1 keep c and then a |
| WekaPredictor.ClusterRepeatExample | weka-runner/src/main/java/com/cloud_ml_app_thesis/weka/WekaPredictor.java:461-491 | the entries 1 and 1 fail with the non-unique-names error |
| WekaPredictor.TrainChoiceExample | weka-runner/src/main/java/com/cloud_ml_app_thesis/weka/WekaTrainer.java:341-348 | at training the same entries 3 and 1 choose the names c and a |
| WekaPredictor.TrainOrderExample | weka-runner/src/main/java/com/cloud_ml_app_thesis/weka/WekaTrainer.java:361-376 | training then keeps a and then c, the dataset order, unlike the clustering prediction |
| WekaPredictor.EnsureClass | weka-runner/src/main/java/com/cloud_ml_app_thesis/weka/WekaPredictor.java:163-169 | a set class is kept; otherwise the class is the target's column when present, else the last column |
| WekaPredictor.PredictedLabelSpec | weka-runner/src/main/java/com/cloud_ml_app_thesis/weka/WekaPredictor.java:204-211 | a label is a value of the label source when the index is in range, and otherwise a fallback "Class_k" that reads back as k |
| WekaPredictor.PredictLabels | weka-runner/src/main/java/com/cloud_ml_app_thesis/weka/WekaPredictor.java:198-213 | one label per row in row order; it fails iff some row's label fails, and then with the first failing row's error |
| WekaPredictor.Count | weka-runner/src/main/java/com/cloud_ml_app_thesis/weka/WekaPredictor.java:262 | a count never exceeds the number of rows |
| WekaPredictor.CountClusters | weka-runner/src/main/java/com/cloud_ml_app_thesis/weka/WekaPredictor.java:256-263 | a negative cluster count fails with NegativeArraySize; an out-of-range cluster fails at the first such row; otherwise count c is the number of rows in cluster c |
| WekaPredictor.DistributionSum | weka-runner/src/main/java/com/cloud_ml_app_thesis/weka/WekaPredictor.java:255-271 | the counts add up to the number of rows |
| WekaPredictor.PredictSupervised | weka-runner/src/main/java/com/cloud_ml_app_thesis/weka/WekaPredictor.java:158-247 | without a class it fails; otherwise it succeeds iff every row's prediction does, then gives one prediction per row in order, and otherwise fails with the first failing row's error |
| WekaPredictor.RegressionFitsNumeric | weka-runner/src/main/java/com/cloud_ml_app_thesis/weka/WekaPredictor.java:236-241 | a regressor's answer always fits the numeric class column, since every value it writes parses back as a double |
| WekaPredictor.PredictClustering | weka-runner/src/main/java/com/cloud_ml_app_thesis/weka/WekaPredictor.java:249-275 | it succeeds iff the cluster count is non-negative and every assignment is in range. It then gives one "Cluster_c" per row and the keyed distribution; otherwise it reports the first failure |
| WekaPredictor.ClusterPredictionsCounted | weka-runner/src/main/java/com/cloud_ml_app_thesis/weka/WekaPredictor.java:255-271 | every row's prediction is a key of the distribution, the keys are distinct, and the counts sum to the number of rows |
| WekaPredictor.FillClass | weka-runner/src/main/java/com/cloud_ml_app_thesis/weka/WekaPredictor.java:286-300 | without a class the data is unchanged. Otherwise the class cell of every row becomes its prediction and nothing else changes; a numeric class fails on a prediction that is not a double |
| WekaPredictor.CsvLines | weka-runner/src/main/java/com/cloud_ml_app_thesis/weka/WekaPredictor.java:303-326 | a header line plus one line per row |
| WekaPredictor.JoinLine | weka-runner/src/main/java/com/cloud_ml_app_thesis/weka/WekaPredictor.java:305-309 | the StringBuilder loop joins the parts with commas |
| WekaPredictor.RenderCsv | weka-runner/src/main/java/com/cloud_ml_app_thesis/weka/WekaPredictor.java:303-326 | the loops compute the file's lines |
| WekaPredictor.HeaderReadsBack | weka-runner/src/main/java/com/cloud_ml_app_thesis/weka/WekaPredictor.java:305-310 | the header splits back into the attribute names when none holds a comma |
| WekaPredictor.RowReadsBack | weka-runner/src/main/java/com/cloud_ml_app_thesis/weka/WekaPredictor.java:313-326 | a row line splits back into the written cells |
| WekaPredictor.Shaped | weka-runner/src/main/java/com/cloud_ml_app_thesis/weka/WekaPredictor.java:116-126 | shaped data is valid, keeps every row, and has no class for clustering |
| WekaPredictor.ShapeTestData | weka-runner/src/main/java/com/cloud_ml_app_thesis/weka/WekaPredictor.java:116-126 | the method computes the shaped data |
| WekaPredictor.ShapedFor | weka-runner/src/main/java/com/cloud_ml_app_thesis/weka/WekaPredictor.java:67-126 | the same for the parameters read from params.json |
| WekaPredictor.Predict | weka-runner/src/main/java/com/cloud_ml_app_thesis/weka/WekaPredictor.java:57-156 | failures come in the source's order: params.json, algorithmType, model.ser, test_data.csv, shaping, unknown type, a model of the wrong kind, then the model's answers; it succeeds exactly when none of them occurs. On success the metadata counts every test row, the CSV has a header plus one line per row, and the outcome is the clustering or the supervised one |
| WekaPredictor.PredictAndCount | weka-runner/src/main/java/com/cloud_ml_app_thesis/weka/WekaPredictor.java:141-148 | the clustering tail gives the clustering outcome and the metadata |
| WekaPredictor.PredictAndWrite | weka-runner/src/main/java/com/cloud_ml_app_thesis/weka/WekaPredictor.java:135-148 | the supervised tail gives the supervised outcome and the metadata; a failure carries the first failing row's error, from the predictions first and then from the class cells |
| WekaPredictor.FillAndRender | weka-runner/src/main/java/com/cloud_ml_app_thesis/weka/WekaPredictor.java:282-330 | it succeeds iff every class cell converts, and otherwise fails with the first refusing row's error. The file is then the header plus every row with its class cell replaced by the prediction |
| WekaRunner.PlanOf | weka-runner/src/main/java/com/cloud_ml_app_thesis/weka/WekaRunner.java:21-63 | usage error iff there are no arguments. DATA_DIR, then MODEL_DIR, must be set; it runs iff the lower-cased command is train or predict, and then with the two directories |
| WekaRunner.ExitStatus | weka-runner/src/main/java/com/cloud_ml_app_thesis/weka/WekaRunner.java:22-67 | the status is 0 or 1, and 0 exactly when a command ran and completed |
| WekaRunner.Run | weka-runner/src/main/java/com/cloud_ml_app_thesis/weka/WekaRunner.java:21-68 | refuses unless the plan runs; runs the trainer iff the command is train and the predictor iff it is predict, on the listings of DATA_DIR and MODEL_DIR, and then succeeds exactly when that trainer or predictor does; a missing params.json or model.ser is reported; status 0 implies a command ran |

## Left out

- ClusterOfEntries: the order and the repeat rule come from Weka's Remove filter and its
  Range, whose code is not part of this model. With the selection inverted, the filter keeps
  the listed columns in the order of the list, and a column listed twice yields two
  attributes with the same name, which `Instances` refuses. The model returns
  NonUniqueAttributeNames for every list with a repeat; a list with more repeats than the
  data has columns may instead end in an index error inside Weka, which is not told apart.
  The clustering prediction thus orders columns by the list (ClusterOrderExample), while
  training selects by name and keeps the dataset's order (TrainOrderExample).
- Floating point: accuracy, RMSE and the other evaluation metrics, `meanPrediction`, the
  log-likelihood, the cluster summary, the PCA `projection2D` and the confusion matrix.
  These are Weka's evaluation results and are not modelled.
- The 70% cut `(int) (numInstances * 0.7)` is a parameter `trainSize <= n`. The shuffle of
  `randomize(new Random(1))` is a parameter permutation.
- Weka's learning: the classifier's, regressor's and clusterer's answers are parameters.
  So are the value list NumericToNominal derives for a numeric class and the label it gives
  each number.
- JSON parsing, logging, and reading and writing files (`model.ser`, `metrics.json`,
  `prediction_metadata.json` and `predictions.csv`). Their contents are modelled as values;
  the serialization is not.
- `Class.forName` on the algorithm name and `setOptions` are left out. A bad class name or
  bad options raise an exception inside Weka, which is not modelled.
- The JVM's default locale. `toLowerCase()` (WekaRunner.java:27) and `toUpperCase()`
  (WekaTrainer.java:104, WekaPredictor.java:134) use it; under a Turkish locale "TRAIN" and
  "CLASSIFICATION" map to dotless or dotted i and are no longer recognised. The model maps
  case as in the root locale.
- Case mapping beyond ASCII and non-ASCII digits in `parseInt`. `Double.parseDouble` and
  `Double.toString` are a parameter.
- `Instances` objects are modelled as values. The in-place updates (`setClassIndex`,
  `setValue`, `insertAttributeAt`) become new values, so aliasing between the caller's and
  the callee's dataset is not captured.
- WekaPredictor.Predict: the class cell is written from the predicted label. In the source,
  `predictClassification` converts a numeric class to nominal only in its own local variable
  (WekaPredictor.java:173-179). The data written to `predictions.csv` therefore keeps the
  numeric placeholder column, and a label such as "Class_0" is parsed as a double and fails.
  The model keeps this behaviour: FillClass fails on it.
- The comment at WekaPredictor.java:147 says the data is written "without placeholder". The
  code writes the shaped data, placeholder included, and the model follows the code.
- `header.ser` is read when present, but the trainer never writes it. The model takes its
  presence and contents as inputs.
- A model object that is neither a Classifier nor a Clusterer is not modelled. ModelKind
  has the two kinds the casts accept.
- Datasets are assumed to have fewer than Integer.MAX_VALUE columns, so that adding the
  placeholder column does not overflow the column count.
- JavaText.Replace: the contract states only the no-occurrence case. The left-to-right,
  non-overlapping replacement is the function's definition; ReplaceWhole and ReplaceEmits
  state its other properties.
