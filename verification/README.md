# Player transformer: a Dafny model

This project models the business rules of the `Transformer` of a batch ETL job
over football player records (short_name, long_name, age, height_cm,
weight_kg, nationality, club_name, overall, potential, team_position). The job
cleans the rows, derives two rank-based categories and a ratio column, and
filters the result. Each stage is modelled as a pure function from one frame
(`seq<Row>`) to the next. Nullable columns are `Option` values. The engine
does not promise any row order; the model's sequence order is a
representation choice, and `Ranking.RankIgnoresRowOrder` shows the ranks do
not depend on it.

Modules:

- `Wrappers`: `Option` (a nullable value) and `Result` (a stage that can
  reject its configuration).
- `Players`: the `Row` record with the ten input columns and the three
  derived columns (`catHeightByPosition`, `playerCat`, `potentialVsOverall`),
  the label type `Cat = A | B | C | D`, and the two projected record types.
- `Sequences`: `IsSubsequence`, the "same rows, some deleted, order kept"
  relation that every filter satisfies.
- `Ranking`: the SQL `rank()` window function. A `Window` names the partition
  columns and the descending order column. `Rank` is one plus the number of
  rows of the same partition whose order value sorts strictly first. Partition
  values compare with null equal to null. The order is descending with nulls
  last, which is the default of a descending sort key in the engine.
- `Filters`: one `Where` for all of the job's filters. A row is kept only when
  its condition is true, so a comparison with a null column drops the row.
- `Transformer`: the stages `CleanData`, `ColumnSelection`,
  `AddHeightCategory` (the source's `example_window_function`),
  `ColumnSelectionTwo`, `AddPlayerCategory`, `AddPotentialVsOverall`,
  `AgeValidation` and `FilterPlayerCatPotentialVsOverall`. It also holds their
  composition `Pipeline`: clean, player_cat, potential_vs_overall, age
  validation, category/ratio filter.
- `Scenarios`: concrete frames that pin the ranking, the thresholds and the
  filters to specific values.

Where the source code cannot run as written, the model follows what the
doc-comments describe:

- `minsait/ttaa/datio/engine/Transformer.py:125` lacks a line continuation.
  The model keeps the `otherwise("D")` fallback of line 126.
- `minsait/ttaa/datio/engine/Transformer.py:137` computes the ratio column
  but returns nothing. The model returns the frame with the column added.
- `minsait/ttaa/datio/engine/Transformer.py:146` is not a valid conditional
  expression. The model keeps players under 23 for flag 1 and all players for
  flag 0. The source has no branch for any other flag; the model rejects it
  with `Failure(UnknownAgeFlag(flag))`.
- `minsait/ttaa/datio/engine/Transformer.py:104` passes
  `team_position.column` without calling it. The model keeps the
  team_position column in the ten-column projection.

Three rules are modelled exactly as the code states them, even where the
comments say otherwise:

- Cleaning checks short_name twice and does not check height_cm. The
  doc-comment at line 44 names the same three columns.
- The height category gives A to `rank < 10`, so only ranks 1 to 9 get A. The
  doc-comment at line 73 says the 20 tallest. `HeightThresholdExamples`
  pins this.
- The doc-comment at line 143 says flag 1 performs all steps only for players
  under 23. The constructor filters by age only after ranking (lines 19-21), so
  an under-23 player is ranked against players of every age. `Pipeline`
  follows the code order, and `PipelineRowFacts` states the rank among all
  cleaned rows.

## Model

| member | source | states |
|---|---|---|
| Transformer.CleanData | minsait/ttaa/datio/engine/Transformer.py:40-52 | a row is kept iff short_name, overall and team_position are non-null (height_cm is not checked); the result is an order-preserving subsequence of the input |
| Transformer.CleanDataIdempotent | minsait/ttaa/datio/engine/Transformer.py:46-51 | cleaning twice equals cleaning once |
| Transformer.CleanDataKeepsCompleteFrame | minsait/ttaa/datio/engine/Transformer.py:44-51 | a frame with no null in the three required columns passes unchanged, even with null heights |
| Filters.Where | minsait/ttaa/datio/engine/Transformer.py:46-51 | a filter returns an order-preserving subsequence of its input, and a row is in it iff it is in the input and its condition is true |
| Filters.WhereCounts | minsait/ttaa/datio/engine/Transformer.py:46-51 | a kept row occurs in the result as often as in the input; any other row does not occur |
| Filters.WhereIdempotent | minsait/ttaa/datio/engine/Transformer.py:157-161 | filtering twice by the same condition equals filtering once |
| Filters.WhereCommutes | minsait/ttaa/datio/engine/Transformer.py:21-22 | two filters applied in either order give the same frame |
| Transformer.ColumnSelection | minsait/ttaa/datio/engine/Transformer.py:54-66 | one record per row, in order, holding exactly that row's short_name, overall, height_cm, team_position and cat_height_by_position |
| Transformer.ColumnSelectionTwo | minsait/ttaa/datio/engine/Transformer.py:89-106 | one record per row, in order, holding exactly that row's ten input columns (team_position included) and no derived column |
| Ranking.Rank | minsait/ttaa/datio/engine/Transformer.py:77-80 | a row's competition rank is at least 1 and at most the size of its partition |
| Ranking.RankOrder | minsait/ttaa/datio/engine/Transformer.py:118-121 | within a partition, equal order values have equal ranks, and a rank is strictly smaller exactly when the order value sorts strictly first (descending, nulls last) |
| Ranking.PeersShareRank | minsait/ttaa/datio/engine/Transformer.py:77-80 | rows with the same partition and order values get the same rank |
| Ranking.RankIgnoresRowOrder | minsait/ttaa/datio/engine/Transformer.py:77-80 | the rank does not depend on the order of the rows in the frame, only on their multiset |
| Ranking.RankSameWindowColumns | minsait/ttaa/datio/engine/Transformer.py:118-121 | ranks are unchanged when only columns outside the window change |
| Transformer.HeightCategory | minsait/ttaa/datio/engine/Transformer.py:82-84 | the label is never D; it is A exactly for ranks below 10 and C exactly from rank 50 |
| Transformer.HeightCategoryMonotone | minsait/ttaa/datio/engine/Transformer.py:82-84 | a larger rank never gives a better height label |
| Transformer.AddHeightCategory | minsait/ttaa/datio/engine/Transformer.py:68-87 | one output row per input row, at the same position of the model's sequence; each row gets the height label of its rank by height_cm descending within team_position; no other column changes |
| Transformer.TallerNeverWorseHeightCategory | minsait/ttaa/datio/engine/Transformer.py:77-84 | in one position, a player at least as tall never gets a worse height label, and equal heights get equal labels |
| Transformer.AddHeightCategoryKeepsPlayerRanks | minsait/ttaa/datio/engine/Transformer.py:86 | adding cat_height_by_position leaves every rank of the nationality/position window unchanged |
| Transformer.PlayerCategory | minsait/ttaa/datio/engine/Transformer.py:123-126 | A exactly for ranks up to 3, B exactly for ranks 4 and 5, C exactly for ranks 6 to 10 |
| Transformer.PlayerCategoryMonotone | minsait/ttaa/datio/engine/Transformer.py:123-126 | a larger rank never gives a better player label |
| Transformer.AddPlayerCategory | minsait/ttaa/datio/engine/Transformer.py:108-129 | one output row per input row, at the same position of the model's sequence; each row gets the player label of its rank by overall descending within nationality and team_position; no other column changes |
| Transformer.HigherOverallNeverWorsePlayerCategory | minsait/ttaa/datio/engine/Transformer.py:113-121 | in one nationality and position, a player with at least the same overall never gets a worse player_cat, and equal overall gives equal player_cat |
| Transformer.TopThreeArePlayerCategoryA | minsait/ttaa/datio/engine/Transformer.py:113 | a player with fewer than three players strictly ahead in its partition is category A |
| Transformer.Ratio | minsait/ttaa/datio/engine/Transformer.py:137 | the ratio is null iff potential or overall is null, and otherwise multiplied by overall gives potential |
| Transformer.AddPotentialVsOverall | minsait/ttaa/datio/engine/Transformer.py:131-137 | one output row per input row, at the same position of the model's sequence; each row's potential_vs_overall is potential / overall; no other column changes |
| Transformer.RatioFloorsInRatings | minsait/ttaa/datio/engine/Transformer.py:159-160 | for a positive overall the ratio exceeds 1.15 iff 20·potential > 23·overall, and exceeds 1.25 iff 4·potential > 5·overall |
| Transformer.AgeValidation | minsait/ttaa/datio/engine/Transformer.py:139-147 | flag 1 keeps exactly the rows with age < 23 in order; flag 0 is the identity; any other flag is a configuration error |
| Transformer.FilterPlayerCatPotentialVsOverall | minsait/ttaa/datio/engine/Transformer.py:149-163 | a row is kept iff player_cat is A or B, or C with ratio > 1.15, or D with ratio > 1.25; order is kept |
| Transformer.FilterPlayerCatPotentialVsOverallIdempotent | minsait/ttaa/datio/engine/Transformer.py:157-161 | the category/ratio filter applied twice equals applying it once |
| Transformer.Enrich | minsait/ttaa/datio/engine/Transformer.py:15-20 | the cleaned frame, row for row, with only player_cat and potential_vs_overall changed |
| Transformer.EnrichedRowFacts | minsait/ttaa/datio/engine/Transformer.py:19-20 | every enriched row is complete, its ratio matches its own potential and overall, and its player_cat is the label of its rank among all cleaned rows |
| Transformer.Pipeline | minsait/ttaa/datio/engine/Transformer.py:15-22 | flags 0 and 1 succeed with a subsequence of the enriched frame that holds a row iff it is enriched, passes the category/ratio rule and, for flag 1, is under 23; any other flag fails with that flag |
| Transformer.PipelineRowFacts | minsait/ttaa/datio/engine/Transformer.py:15-22 | every output row is complete, has a consistent ratio, carries the player_cat ranked before filtering, passes the category/ratio rule, and is under 23 when the flag is 1 |
| Transformer.AgeFlagOnlyNarrows | minsait/ttaa/datio/engine/Transformer.py:21-22 | the flag-1 output is the flag-0 output restricted to players under 23 |
| Scenarios.CompetitionRankExample | minsait/ttaa/datio/engine/Transformer.py:77-80 | heights 190, 190, 180, 170 in one position rank 1, 1, 3, 4 |
| Scenarios.HeightThresholdExamples | minsait/ttaa/datio/engine/Transformer.py:82-84 | ranks 1 and 9 give A, 10 and 49 give B, 50 gives C |
| Scenarios.PlayerThresholdExamples | minsait/ttaa/datio/engine/Transformer.py:123-126 | ranks 3, 4, 5, 6, 10, 11 give A, B, B, C, C, D |
| Scenarios.RatioExample | minsait/ttaa/datio/engine/Transformer.py:137 | potential 90 and overall 80 give 1.125 |
| Scenarios.CategoryRatioExamples | minsait/ttaa/datio/engine/Transformer.py:157-161 | C with 1.16 is kept and with 1.15 dropped; D with 1.25 is dropped and with 1.26 kept; B is kept with a null ratio; C with a null ratio and a null category are dropped |
| Scenarios.AtMostThreePlayersAllKept | minsait/ttaa/datio/engine/Transformer.py:118-126 | in a complete frame of at most three players everyone is category A and the flag-0 pipeline keeps every row |
| Scenarios.StrikersExample | minsait/ttaa/datio/engine/Transformer.py:118-126 | three Brazilian strikers with overall 90, 85, 80 are all category A and all kept |

## Left out

- Reading the input (`read_input`, header and schema inference), `printSchema` and `show`: file I/O and printing. The input frame is a parameter.
- `Writer.write` (minsait/ttaa/datio/utils/Writer.py): coalescing, partitioning the output by nationality, overwrite mode and the columnar file format are storage behaviour with no logic to verify.
- The constructor's literal stage order (minsait/ttaa/datio/engine/Transformer.py:11-29): `column_selection` keeps five columns, and later stages read nationality, age and potential, so that sequence cannot run. `Pipeline` composes the stages in a coherent order. The projections are modelled as separate stages.
- Columns of the input file other than the ten named ones; no stage reads them.
- Physical parallelism and execution of the window functions: the model computes each rank from the whole frame.
- Row order: the engine regroups and sorts rows to evaluate the window functions (minsait/ttaa/datio/engine/Transformer.py:77-80, 118-121), so its output order is not the input order and is not specified. The model's statements about order ("same position", "order-preserving subsequence") describe its own sequence, not the program's output; the rank itself depends only on the multiset of rows (`Ranking.RankIgnoresRowOrder`).
- Transformer.Ratio: requires `overall` to be non-zero and computes an exact `real` quotient. The engine's floating-point division and its result for a zero divisor are not modelled. For ratings of realistic size, the exact and the floating-point comparisons with 1.15 and 1.25 agree.
- Transformer.AddPotentialVsOverall: inherits the non-zero overall requirement. `Enrich`, `Pipeline` and the lemmas about them require it only of the cleaned rows, since cleaning runs before the division.
