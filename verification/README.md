# PathoMetrics patient lookup — a Dafny model

PathoMetrics is a Dash dashboard over a spreadsheet of patient lab results.
Its only decision logic is the patient-lookup panel. The user types a Patient
ID and clicks Search. The panel then shows one of these:

- a prompt, if Search has not been clicked yet;
- a prompt for a valid ID, if the ID box is empty;
- "not found", if no row has that ID;
- for every row with that ID: the ID, Age and Gender lines, then one line per
  lab parameter. A parameter line is shown in red when its value is outside
  the parameter's healthy range.

This project models that path in four Dafny modules and proves its behaviour.

- `RangeTable` (`healthy_ranges.dfy`) holds the four lab parameters and their
  column names. It also holds the fixed healthy-range table and the inclusive
  range classifier.
- `PatientTable` (`patient_table.dfy`) holds the patient row and the lookup by
  exact ID equality. The lookup is given twice: as a recursive filter
  (`Matches`) and as a loop (`FindPatient`). The loop also returns the
  positions of the matching rows, as pandas keeps the original index labels.
- `PatientDetails` (`patient_details.dfy`) holds the callback itself. Each HTML
  paragraph becomes a `Line`: the field it shows plus a `flagged` bit for the
  red style. The panel content becomes `Details`: `Prompt`,
  `InvalidIdPrompt`, `NotFound` or `Lines(seq<Line>)`.
- `Sequences` (`sequences.dfy`) is a generic helper. `FlatMap` joins one block
  per element in order. The rendering is built on it.

Lab values are only compared, never computed with, so they are `real`s. The
click count is `Option<int>` and the ID text is `Option<string>`. This follows
Python truthiness: `None` and `0` mean "not clicked", and `None` and `""` mean
"no ID".

The range lookup at app.py:29 raises `KeyError` for an unknown parameter name,
and nothing catches it. The classifier therefore has a precondition that the
name is a key of the table.

## Model

| member | source | states |
|---|---|---|
| `RangeTable.HealthyRanges` | app.py:20-25 | Every lab parameter's column name has a range. No other name has one. Every range has min <= max. |
| `RangeTable.NumericColumnsWellFormed` | app.py:14 | The display order lists each of the four parameters exactly once. No two parameters share a column name. |
| `RangeTable.IsWithinHealthyRange` | app.py:28-30 | Only a name in the table can be classified (a missing key is a lookup failure). The result is true exactly when min <= value <= max for that name's range. |
| `RangeTable.BoundariesInclusive` | app.py:30 | A value equal to min or to max is healthy. A value strictly below min or above max is not. |
| `RangeTable.HealthyValuesConvex` | app.py:30 | Any value between two healthy values of a parameter is healthy too. |
| `RangeTable.ClassifierConstants` | app.py:20-30 | Per parameter, the classifier accepts exactly [12.0, 16.5], [4.5, 11.0], [150, 450] and [0, 200]. |
| `RangeTable.HemoglobinExamples` | app.py:21 | Hemoglobin 11.9 and 16.6 are out of range. 12.0 and 16.5 are in range. |
| `PatientTable.Matches` | app.py:131 | The filter never grows the table. Every row it keeps carries exactly the searched ID. |
| `PatientTable.MatchesMembership` | app.py:131 | A row is kept exactly when it is in the table and its ID equals the searched ID. |
| `PatientTable.MatchesAppend` | app.py:131 | Filtering two joined tables gives the matches of the first, followed by the matches of the second. So the filter keeps table order. |
| `PatientTable.MatchesEmptyIffAbsent` | app.py:131-134 | The result is empty exactly when no row carries the ID. |
| `PatientTable.FindPatient` | app.py:131 | The loop returns the same rows as the filter. It also returns their positions. The positions strictly increase, each names the row at that place, and they are exactly the positions of the rows carrying the ID. |
| `PatientTable.FindExamples` | app.py:131 | With two "P1" rows around a "P2" row, both "P1" rows come back in table order. An absent ID finds nothing. |
| `PatientDetails.Clicked` | app.py:125 | The click count counts as "not clicked" exactly when it is None or 0, as in Python's `not n_clicks`. |
| `PatientDetails.ValidId` | app.py:128 | The ID text is unusable exactly when it is None or the empty string, as in Python's `not patient_id`. |
| `PatientDetails.ParamLine` | app.py:143-148 | A parameter line shows the parameter and its value whatever the flag is. It is flagged exactly when the value is below the range's min or above its max. |
| `PatientDetails.ParamLines` | app.py:143-148 | There is one line per listed parameter, in list order, and line j belongs to parameter j. |
| `PatientDetails.RowLines` | app.py:137-148 | A row's block has exactly 3 + 4 = 7 lines. |
| `PatientDetails.RowLinesHeader` | app.py:138-140 | A block starts with the ID, Age and Gender lines, in that order, all unflagged. |
| `PatientDetails.RowLinesParam` | app.py:143-148 | Offset 3 + j of a block is the line for the j-th parameter of the display order. |
| `PatientDetails.RenderRows` | app.py:136-150 | The rendering of n rows has 7 × n lines. |
| `PatientDetails.RenderRowsAppend` | app.py:137-148 | Rendering two joined row sequences gives the first one's lines, then the second's. Blocks follow row order. |
| `PatientDetails.RenderedLineAt` | app.py:137-148 | Line j of row k's block is at position 7 × k + j. |
| `PatientDetails.RenderedHeaderAt` | app.py:137-140 | Positions 7 × k, 7 × k + 1 and 7 × k + 2 hold row k's ID, Age and Gender, unflagged. |
| `PatientDetails.RenderedParamAt` | app.py:137-148 | Position 7 × k + 3 + j holds row k's line for parameter j. |
| `PatientDetails.DisplayPatientDetails` | app.py:124-150 | Without a click the result is the Search prompt. With a click but no usable ID it is the valid-ID prompt. Otherwise it is "not found" exactly when no row carries the ID, and when some row does carry it the result is the line list for the matches. A line list only comes after a click with a usable ID. It is then the rendering of all matching rows in table order: 7 lines per match, and never empty. |
| `PatientDetails.DisplayedLineAt` | app.py:131-150 | For the k-th matching row, the panel's line 7 × k shows the searched ID, unflagged. Line 7 × k + 3 + j shows parameter j and its value, and is flagged exactly when the value is outside the healthy range. |
| `PatientDetails.PromptIgnoresId` | app.py:125-126 | The click check comes first. Before any click the result is the Search prompt, whatever the ID box holds. |

## Left out

- Loading the spreadsheet with `pd.read_excel` (app.py:11) is file I/O. The table is a given `seq<Row>`. Every row is taken to have all four lab columns; in the source a missing column would raise `KeyError` at `row[param]` (app.py:144).
- Dash layout, HTML/CSS classes, the colour palette and `app.run_server` (app.py:17, 33-116, 197-198) are UI plumbing. A paragraph is a `Line`, and the red style is its `flagged` bit.
- Formatting of the line text (the f-strings at app.py:138-148, including how pandas prints a float) is not modelled. A line carries the field and the value it shows.
- The scatter plot and its trendline (app.py:152-182) are left out. They fit OLS through statsmodels and sample with `np.linspace`: floating-point numerics in foreign libraries.
- The bar chart (app.py:184-194) is plotly rendering only.
- The summary statistics (app.py:70-73) are left out. They are pandas `nunique`, `mean`, `median` and `std` with `:.2f` formatting, shown in the layout.
- NaN cells are not modelled. In the source every comparison with NaN is false, so a missing lab value would be flagged. Every value here is a real number.
- The "Less than 200" text for cholesterol (app.py:60) is layout prose. The classifier accepts 200 inclusively (app.py:30), and the model follows the classifier.
- Patient IDs are strings, compared exactly. If the spreadsheet stored IDs as numbers, the text from the input box would never equal them. That depends on the file's contents and is not modelled.
