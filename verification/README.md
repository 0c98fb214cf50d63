# MeritMap readiness evaluation — a Dafny model

MeritMap is a one-page placement-readiness tool. A candidate answers a form
(CGPA, skill scores, counts of internships and projects, backlogs, branch, …).
The answers are put into a fixed 25-column feature vector and scaled. A
pre-trained logistic classifier then gives a placement probability. The tool
maps that probability to one of four readiness categories. It also attributes
the linear decision score to the features (scaled value times coefficient).
From seven curated features it picks at most three areas to improve and at
most two strengths, and shows a fixed message for each, or a fallback
sentence when a list is empty.

This project models that decision logic as pure Dafny functions over `real`s
and small enumerations, and proves what the logic promises:

- `features.dfy` (`Features`): the closed `Feature` enumeration, the fitted
  column order `FeatureColumns`, column names, the curated list, the form
  answers (`Inputs`) and their slider ranges, and the assembled vector with
  its one-hot branch flags.
- `readiness.dfy` (`Readiness`): the probability → category threshold ladder.
- `attribution.dfy` (`Attribution`): element-wise contributions, the
  name-keyed dictionary built by pairing column names with contributions,
  and its restriction to the curated features.
- `selection.dfy` (`Selection`): the stable sort (ascending, and descending
  via a negated key), the sign filter, the cut to three or two entries, and
  the weak / strong area selection.
- `feedback.dfy` (`Feedback`): the two message tables, the fallback
  sentences, and how a list of areas is rendered.
- `evaluation.dfy` (`Evaluation`): the whole button handler, from scaled
  vector, coefficients and probability to the report.

The scaler and the classifier are foreign objects. Their outputs (the scaled
25-vector, the 25 coefficients, the positive-class probability) are inputs
of `Evaluation.Evaluate`.

Python's `sorted` is stable, also with `reverse=True`. The model sorts by
insertion and places an entry in front of the first entry whose key is not
smaller. Entries come in curated order, so ties stay in curated order.
`Selection.StableSortIsSort` proves that any stable sort of the curated
entries gives the same sequence. The tie order is therefore the one the
source produces.

Dictionaries keyed by column-name strings are modelled as maps keyed by the
`Feature` enumeration. `Features.NameRoundTrip` proves that the names are
pairwise distinct, so the two keyings are interchangeable.

## Model

| member | source | states |
|---|---|---|
| `Features.ColumnsAreSchema` | MeritMap/src/app.py:13-22 | the fitted column list has 25 slots, holds every feature exactly once, and slot index and `ColumnIndex` are mutually inverse |
| `Features.ColumnIndex` | MeritMap/src/app.py:13-22 | every feature has a column position below 25 and the column list holds that feature there |
| `Features.NameRoundTrip` | MeritMap/src/app.py:13-22 | looking up a feature's column name gives back that feature, so no two columns share a name |
| `Features.NamesInjective` | MeritMap/src/app.py:13-22 | two features with the same column name are the same feature |
| `Features.FeatureNamed` | MeritMap/src/app.py:101 | a name resolves only to a feature whose column name it is |
| `Features.CuratedRank` | MeritMap/src/app.py:125-128 | a feature's rank is below 7 exactly when it is curated, and the curated list holds it at that rank |
| `Features.CuratedInSchema` | MeritMap/src/app.py:13-22 | the seven curated features are distinct, each is a column of the fitted schema, and each has its list position as rank |
| `Features.BranchFlag` | MeritMap/src/app.py:62-97 | each branch choice has a flag among the last five columns, named `branch_` followed by the label the branch selector shows for it |
| `Features.BranchFlagInjective` | MeritMap/src/app.py:93-97 | distinct branch choices have distinct flag columns |
| `Features.Assemble` | MeritMap/src/app.py:72-101 | the assembled vector has 25 entries, and the entry at each feature's column is that feature's form value |
| `Features.BranchOneHot` | MeritMap/src/app.py:93-97 | the selected branch's flag is 1, the other four flags are 0, and the five flags sum to 1 |
| `Features.AssembledWithinBounds` | MeritMap/src/app.py:38-62 | answers within the sliders' and selectors' ranges give a vector whose every entry lies within its column's bounds |
| `Features.DefaultsInRange` | MeritMap/src/app.py:38-62 | the form's initial answers are within range and select the Civil branch |
| `Readiness.Categorize` | MeritMap/src/app.py:106-117 | the category given to a probability is one whose band contains that probability |
| `Readiness.CategorizeIsBand` | MeritMap/src/app.py:106-117 | a probability gets a category exactly when it lies in that category's band: below 0.20, [0.20, 0.50), [0.50, 0.80), 0.80 and above |
| `Readiness.CategorizeMonotone` | MeritMap/src/app.py:106-117 | a higher probability never gives a lower category |
| `Readiness.LevelCountsThresholds` | MeritMap/src/app.py:106-117 | the category's level is the number of thresholds 0.20, 0.50, 0.80 the probability reaches |
| `Attribution.Zip` | MeritMap/src/app.py:123 | the keys of the map are exactly the keys paired with a value (pairing stops at the shorter sequence), and with distinct keys each key maps to the value at its own index |
| `Attribution.FeatureContrib` | MeritMap/src/app.py:121-123 | every feature is a key, and its contribution is the scaled value times the coefficient at that feature's column |
| `Attribution.ContribFiltered` | MeritMap/src/app.py:125-130 | the restriction holds exactly the entries pairing a curated feature with its contribution, listed in the curated list's order |
| `Selection.Insert` | MeritMap/src/app.py:131 | insertion adds exactly one entry and keeps all others |
| `Selection.Sort` | MeritMap/src/app.py:131 | sorting is a permutation of its input |
| `Selection.InsertRanked` | MeritMap/src/app.py:131 | inserting an entry ranked before all of a sorted list keeps the list sorted by key with ties in curated order |
| `Selection.SortRanked` | MeritMap/src/app.py:131 | sorting entries given in curated order yields them ordered by key, ties in curated order (stability) |
| `Selection.RankedUnique` | MeritMap/src/app.py:131 | two key-sorted, tie-stable arrangements of the same entries are identical |
| `Selection.StableSortIsSort` | MeritMap/src/app.py:154 | every stable sort of the curated entries, ascending or in reverse, equals the model's sort |
| `Selection.KeepNegative` | MeritMap/src/app.py:153 | the filter keeps exactly the entries on the wanted side of zero |
| `Selection.KeepRanked` | MeritMap/src/app.py:153 | filtering a sorted list leaves it sorted |
| `Selection.KeptSpec` | MeritMap/src/app.py:130-131 | the sorted, filtered entries are sorted, each is a curated feature with its contribution on the wanted side of zero, and every such feature is among them |
| `Selection.SelectSound` | MeritMap/src/app.py:153-155 | the selection is within the limit, every selected feature is curated and on the wanted side of zero, and the selection is ordered by contribution with ties in curated order |
| `Selection.SelectMaximal` | MeritMap/src/app.py:153-155 | a curated feature on the wanted side of zero is left out only when the limit is reached and every selected feature is at least as far from zero |
| `Selection.SelectEmpty` | MeritMap/src/app.py:153-155 | nothing is selected exactly when no curated feature is on the wanted side of zero |
| `Selection.WeakAreas` | MeritMap/src/app.py:131-153 | at most 3 distinct curated features, each with negative contribution, most negative first with ties in curated order; a negative curated feature is left out only if 3 are chosen and none is less negative; empty exactly when no curated contribution is negative |
| `Selection.StrongAreas` | MeritMap/src/app.py:154-155 | at most 2 distinct curated features, each with positive contribution, most positive first with ties in curated order; a positive curated feature is left out only if 2 are chosen and none is less positive; empty exactly when no curated contribution is positive |
| `Selection.WeakStrongDisjoint` | MeritMap/src/app.py:153-155 | no feature is both a weak area and a strong area |
| `Feedback.TablesCoverCurated` | MeritMap/src/app.py:133-151 | both message tables have an entry for exactly the seven curated features |
| `Feedback.TablesUnambiguous` | MeritMap/src/app.py:133-151 | within each table no two features share a message, and no message equals that table's fallback sentence |
| `Feedback.Render` | MeritMap/src/app.py:161-173 | a section falls back to its fixed sentence exactly when the list is empty, and otherwise has one line per area with that area's message |
| `Feedback.RenderInjective` | MeritMap/src/app.py:161-173 | with an unambiguous table, the rendered section determines the list of areas and its order |
| `Evaluation.Evaluate` | MeritMap/src/app.py:103-173 | the category's band contains the probability; at most 3 weak and 2 strong areas, each with a table entry; "No major weak areas detected." / "Balanced profile." shown exactly when the respective list is empty |
| `Evaluation.WeakAreasByColumn` | MeritMap/src/app.py:121-153 | every weak area is curated with scaled value times coefficient below zero, most negative first with ties in curated order; a negative curated feature is missing only when 3 are listed, none of them less negative than it |
| `Evaluation.StrongAreasByColumn` | MeritMap/src/app.py:121-155 | every strong area is curated with scaled value times coefficient above zero, most positive first with ties in curated order; a positive curated feature is missing only when 2 are listed, none of them less positive than it |
| `Evaluation.EvaluateDisjoint` | MeritMap/src/app.py:153-155 | the report never lists a feature both as an area to improve and as a strength |
| `Evaluation.MessagesIdentifyAreas` | MeritMap/src/app.py:159-173 | the two sections shown determine which areas to improve and which strengths were selected, in order, for any lists whose areas have messages (as every report's do) |

## Left out

- Streamlit calls (page config, titles, columns, sliders, selectors, the button, `st.write`, `st.error`/`st.warning`/`st.success`, the caption) are UI only. The slider and selector ranges appear as the predicate `Features.InRange`. Slider step sizes are not modelled.
- The emoji and exact wording of the four category labels, and the alert style used for each, are presentation. The category is an enumeration.
- `joblib.load` of the model and the scaler (app.py:10-11) is file I/O and deserialisation of foreign objects, so artifact-loading failures are not modelled.
- `scaler.transform` and `model.predict_proba` (app.py:103-104) are opaque library code. Their results are inputs, and nothing is claimed about the probability lying in [0, 1].
- pandas `DataFrame` construction and column reindexing (app.py:100-101) are modelled directly as `Features.Assemble`. The reindexing lookup cannot fail because the form dictionary has all 25 names.
- IEEE floating point (rounding, NaN, signed zero) is not modelled: values are mathematical reals.
- numpy broadcasting of vectors of different lengths is not modelled: the contributions are taken of two equally long vectors, which is all the 25-column schema produces.
- Attribution.Zip: the value of a repeated key (the later pair wins) is computed but only characterised for distinct keys, the only case the source produces.
- Evaluation.Evaluate: the sign, order (with the curated tie rule) and maximality of the selected areas, in terms of scaled value times coefficient, are stated in `Evaluation.WeakAreasByColumn` and `Evaluation.StrongAreasByColumn` rather than in its own contract.
- Repeated evaluations giving identical results holds trivially because every member is a pure function, so it is not stated as a lemma.
