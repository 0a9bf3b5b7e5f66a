# Kurucz gfall pipeline of carsus, modelled in Dafny

This project models the part of carsus that turns a Kurucz `gfall.dat` line
list into level and line tables (`carsus/io/kurucz/gfall.py`):

- **`GFALLReader`** (`reader.dfy`) is a class whose four caches (`gfall_raw`,
  `gfall`, `levels`, `lines`) are fields filled on first access. Its
  invariant `Valid()` says that every filled cache holds what its stage
  computes from the file.
  - The stages are pure functions:
    - decoding the Fortran FORMAT descriptor (`descriptor.dfy`);
    - `parse_gfall`'s lower/upper orientation, label cleaning, sentinel filter,
      predicted-energy flag and element-code split (`normalize.dfy`,
      `labels.dfy`);
    - `extract_levels`'s deduplication, sort and per-ion `level_index`
      (`levels.dfy`);
    - `extract_lines`' join of each row's identifier values to a level index
      (`lines.dfy`).
  - pandas' operations are generic functions over sequences (`tables.dfy`):
    - a stable multi-column sort;
    - `drop_duplicates` keeping the first or the last row;
    - the per-group `arange`;
    - the inner join on `(atomic_number, ion_charge)`.
- **`GFALL`** (`gfall.dfy`) is a class holding the reader, the selected ions
  and NIST's ionization energies and ground levels. Its constructor runs
  `_create_levels_lines`, which writes the `g` column into the reader's
  cached levels in place. The table logic is in `gfall_levels.dfy`:
  - `_get_all_levels_data`;
  - the ionization-energy cull and `level_number`;
  - `_create_artificial_fully_ionized`, a method with a loop.

  `gfall_lines.dfy` holds `_get_all_lines_data`, a method whose nested loops
  remap level indices to `level_id`s.
- **`GFALLIngester`** (`ingest.dfy`): only the ion selection and the rule for
  the medium (vacuum up to 200 nm inclusive, air above).

Floating-point transforms are given functions in a `Units` value. These are
10**x, log10, cm⁻¹→eV, nm→Å and air→vacuum, and nothing is proved about their
numerics. Every exception the code can raise on the modelled paths is a
constructor of `Common.Error`:
- a `KeyError` from `.loc[ion]`;
- the `ValueError` from `int(NaN)`;
- `pd.concat([])`;
- an `AttributeError` when no identifier was stored.

Where the code differs from its documentation, the model follows the code:
- The sentinel filter drops a row whose cleaned label is exactly `AVERAGE`,
  `ENERGIES` or `CONTINUUM`. A label such as `AVERAGE ENERGIES` is kept.
- In `extract_lines`, a level key missing from the table leaves NaN (`None`),
  not an error. The join always reads `self.levels`, whatever `levels`
  argument is passed.
- `_get_all_lines_data` looks up `level_index` by *position* in the ion's
  slice of `_levels_all`, and that slice is taken before the cull. Lines that
  point at culled levels are therefore kept.
  - The position matches the level only while the slice lines up with the
    reader's levels of that ion. A NIST ground row of the ion that survives
    `drop_duplicates(keep='last')` breaks this, because it comes first and
    shifts every position by one. So does a gfall level removed as an exact
    duplicate.
  - `GfallLines.ResolvedLevels` proves that each resolved id names the level
    at that index whenever the slice does line up.
- A caller-supplied `unique_level_identifier` is never stored by
  `GFALLReader.__init__`. A reader built with one fails with `MissingIdentifier`
  when it extracts levels or lines.

## Model

| member | source | states |
|---|---|---|
| `Descriptor.GfallLayout` | carsus/io/kurucz/gfall.py:37-50 | decoding the gfall descriptor gives 34 columns, each named after `gfall_columns` in order with the width and dtype of its entry; the widths sum to 160 |
| `Descriptor.GfallFormatOfFields` | carsus/io/kurucz/gfall.py:37-39 | the descriptor string is the rendering of the 34 typed entries |
| `Descriptor.GfallFieldsWellFormed` | carsus/io/kurucz/gfall.py:37-39 | there are 34 entries and only F entries carry a decimal count |
| `Descriptor.GfallWidthSum` | carsus/io/kurucz/gfall.py:37-39 | the entry widths sum to 160 characters |
| `Descriptor.FieldTypesOfFormat` | carsus/io/kurucz/gfall.py:125-129 | for any well-formed descriptor, removing the numbers and splitting at commas yields one dtype per entry: F→float64, I→int64, A and X→str |
| `Descriptor.FieldWidthsOfFormat` | carsus/io/kurucz/gfall.py:131-132 | for any well-formed descriptor, removing the letters and the decimal counts and splitting at commas yields each entry's width |
| `Descriptor.TypeItemsOfFormat` | carsus/io/kurucz/gfall.py:128-129 | the number-removal pass leaves exactly one type letter per entry |
| `Descriptor.WidthItemsOfFormat` | carsus/io/kurucz/gfall.py:131-132 | the letter- and decimal-removal pass leaves exactly the width digits of each entry |
| `Descriptor.DigitsRoundTrip` | carsus/io/kurucz/gfall.py:132 | `int()` of a width's decimal digits gives the width back |
| `Descriptor.FormatAppend` | carsus/io/kurucz/gfall.py:37-39 | rendering a concatenation of entries joins the renderings with a comma |
| `Normalize.DropBlank` | carsus/io/kurucz/gfall.py:137-138 | the result holds exactly the records of the file, blank lines removed, and is no longer than the file |
| `Normalize.DropBlankAppend` | carsus/io/kurucz/gfall.py:137-138 | dropping blank lines distributes over concatenation, so records keep their order and multiplicity |
| `Normalize.DropBlankSingle` | carsus/io/kurucz/gfall.py:137-138 | a record line yields its row, a blank line yields nothing |
| `Normalize.Orient` | carsus/io/kurucz/gfall.py:163-179 | the pair is kept or swapped as a whole; the first side has the smaller absolute energy; on a tie the second side becomes lower |
| `Normalize.SplitElementCode` | carsus/io/kurucz/gfall.py:198-200 | the code in hundredths is 100·atomic_number + ion_charge with ion_charge < 100, and equals the source's `(code − atomic_number)·100` |
| `Normalize.NormalizeRow` | carsus/io/kurucz/gfall.py:157-202 | lower and upper come from one orientation choice for every paired column, the second level being the lower one on a tie of absolute energies; the predicted flags are the signs of the original energies; stored energies are absolute with 0 ≤ lower ≤ upper; the element code splits exactly; wavelength and loggf are copied |
| `Normalize.ParseGfallMembers` | carsus/io/kurucz/gfall.py:188-191 | a parsed row exists iff it normalises a raw row that is not a sentinel row |
| `Normalize.ParseGfallAppend` | carsus/io/kurucz/gfall.py:190-191 | parsing distributes over concatenation, so surviving rows keep their order |
| `Normalize.ParseGfallLabels` | carsus/io/kurucz/gfall.py:181-191 | every parsed label is already clean and none is a sentinel label |
| `Labels.TrimStart` | carsus/io/kurucz/gfall.py:182-183 | the result is a suffix of the input that does not start with a character `str.isspace` accepts |
| `Labels.TrimEnd` | carsus/io/kurucz/gfall.py:182-183 | the result is a prefix of the input that does not end with a character `str.isspace` accepts |
| `Labels.CleanLabelIsJoinOfWords` | carsus/io/kurucz/gfall.py:182-186 | strip followed by `\s+`→' ' equals the label's words joined with single spaces |
| `Labels.CleanLabelIdempotent` | carsus/io/kurucz/gfall.py:182-186 | cleaning a cleaned label changes nothing |
| `Labels.WordsOfJoin` | carsus/io/kurucz/gfall.py:185-186 | joining proper words with single spaces and splitting again gives the same words |
| `Levels.LevelRows` | carsus/io/kurucz/gfall.py:231-243 | all lower projections, then all upper projections, two per row |
| `Levels.MakeLevel` | carsus/io/kurucz/gfall.py:250-252 | method is "theor" iff the level is theoretical |
| `Levels.Number` | carsus/io/kurucz/gfall.py:254-256 | each level gets its rank among the earlier levels of its ion |
| `Levels.SortedRowsSpec` | carsus/io/kurucz/gfall.py:242-248 | the deduplicated, sorted rows have distinct keys, contain every row's lower and upper key, are sorted and come from the projections |
| `Levels.SortedRowsFirst` | carsus/io/kurucz/gfall.py:242-246 | every kept row is the first lower/upper projection with its key (keep='first') |
| `Levels.ExtractLevelsDistinct` | carsus/io/kurucz/gfall.py:244-246 | at most one level per (atomic_number, ion_charge) + identifier |
| `Levels.ExtractLevelsComplete` | carsus/io/kurucz/gfall.py:242-246 | every row's lower key and upper key has a level |
| `Levels.ExtractLevelsOrigin` | carsus/io/kurucz/gfall.py:234-246 | every level describes the lower or upper side of some row |
| `Levels.ExtractLevelsFirst` | carsus/io/kurucz/gfall.py:234-246 | of the rows sharing a level's key, the level describes the first projection |
| `Levels.ExtractLevelsSorted` | carsus/io/kurucz/gfall.py:247-248 | levels are ordered by (atomic_number, ion_charge, energy, j, label) |
| `Levels.ExtractLevelsIndex` | carsus/io/kurucz/gfall.py:254-256 | each ion's level_index is below the ion's level count and strictly increasing in table order |
| `Levels.ExtractLevelsIndexReached` | carsus/io/kurucz/gfall.py:254-256 | every index below the ion's level count is used, so the indices are exactly 0..n−1 |
| `Levels.IonLevelPositions` | carsus/io/kurucz/gfall.py:254-256 | the k-th level of an ion in table order has level_index k |
| `Levels.Trunc` | carsus/io/kurucz/gfall.py:574 | `int()` truncates toward zero |
| `Levels.WithWeights` | carsus/io/kurucz/gfall.py:573-574 | every level gains g = int(2j + 1) and is otherwise unchanged |
| `Levels.WithWeightsIdempotent` | carsus/io/kurucz/gfall.py:573-574 | adding g a second time changes nothing |
| `Levels.WithWeightsKeys` | carsus/io/kurucz/gfall.py:573-574 | adding g keeps every level's key and level_index |
| `Lines.LookupIndex` | carsus/io/kurucz/gfall.py:306-315 | None (NaN) iff no level has the key; otherwise the level_index of a level with that key |
| `Lines.LookupIndexUnique` | carsus/io/kurucz/gfall.py:306-315 | with distinct keys the lookup returns the index of the one level that has the key |
| `Lines.ExtractLines` | carsus/io/kurucz/gfall.py:296-317 | one line per parsed row, in row order |
| `Lines.ExtractLinesResolved` | carsus/io/kurucz/gfall.py:296-317 | against the reader's own levels, both indices of every line are found and name a same-ion level whose identifier equals the line's lower (upper) values |
| `Lines.LookupIndexWeights` | carsus/io/kurucz/gfall.py:306-315 | the lookup does not see the g column |
| `Lines.ExtractLinesWeights` | carsus/io/kurucz/gfall.py:306 | the lines are the same whether the cached levels carry g or not |
| `Reader.GfallReader.constructor` | carsus/io/kurucz/gfall.py:53-74 | every cache empty; the default identifier is stored only when none is given |
| `Reader.GfallReader.ReadGfallRaw` | carsus/io/kurucz/gfall.py:101-140 | returns the file's records with blank lines dropped (what `Normalize.DropBlankAppend` and `Normalize.DropBlankSingle` characterise), no cache touched |
| `Reader.GfallReader.GetGfallRaw` | carsus/io/kurucz/gfall.py:77-81 | returns the raw table and caches it; the other caches are unchanged |
| `Reader.GfallReader.ParseGfallFrom` | carsus/io/kurucz/gfall.py:142-157 | parses the given table, or the cached raw table (filling that cache) |
| `Reader.GfallReader.GetGfall` | carsus/io/kurucz/gfall.py:83-87 | returns the parsed table and caches it with the raw one |
| `Reader.GfallReader.ExtractLevelsFrom` | carsus/io/kurucz/gfall.py:224-246 | the levels of the given or cached table; MissingIdentifier without a stored identifier |
| `Reader.GfallReader.GetLevels` | carsus/io/kurucz/gfall.py:89-93 | a filled cache is returned unchanged; otherwise extract_levels, cached on success |
| `Reader.GfallReader.ExtractLinesFrom` | carsus/io/kurucz/gfall.py:282-306 | the lines of the given or cached table, joined against the reader's own levels whatever table is passed |
| `Reader.GfallReader.GetLines` | carsus/io/kurucz/gfall.py:95-99 | a filled cache is returned unchanged; otherwise extract_lines, cached on success; a filled levels cache (with or without g) keeps its value, an empty one gets the extracted levels |
| `Reader.GfallReader.AddWeights` | carsus/io/kurucz/gfall.py:573-574 | the cached levels gain the g column in place |
| `GfallLevels.NumberFromOne` | carsus/io/kurucz/gfall.py:590-591 | row i gets level_id i + 1 |
| `GfallLevels.LevelsAllSpec` | carsus/io/kurucz/gfall.py:570-595 | each kept row is the last of its content in ground ++ selected levels, with its original level_id; contents are distinct; every content survives |
| `GfallLevels.LevelsAllIdsIncrease` | carsus/io/kurucz/gfall.py:590-593 | level_ids increase strictly down `_levels_all` |
| `GfallLevels.Shift` | carsus/io/kurucz/gfall.py:600-601 | every ionization row's ion_number drops by one, nothing else changes |
| `GfallLevels.MatchesPositive` | carsus/io/kurucz/gfall.py:604-607 | a level has a merge partner below its ionization energy iff it survives the mask |
| `GfallLevels.CullMembers` | carsus/io/kurucz/gfall.py:604-607 | a row is in the culled table iff it is in `_levels_all` and below some matching ionization energy |
| `GfallLevels.MatchesAtMostOne` | carsus/io/kurucz/gfall.py:604-605 | with a unique ionization index the left merge finds at most one partner |
| `GfallLevels.CullDistinct` | carsus/io/kurucz/gfall.py:604-607 | with a unique ionization index the merge-and-mask is a filter |
| `GfallLevels.ShiftSurvives` | carsus/io/kurucz/gfall.py:600-607 | after the shift, a level survives iff its energy is below that of ionizing (atomic_number, ion_number + 1) |
| `GfallLevels.NumberLevels` | carsus/io/kurucz/gfall.py:611-618 | each level gets its rank within its ion, metastable false |
| `GfallLevels.CulledMembers` | carsus/io/kurucz/gfall.py:599-618 | the culled levels are exactly the rows below their ionization energy, none metastable |
| `GfallLevels.CulledNumbering` | carsus/io/kurucz/gfall.py:610-613 | within an ion, level_number strictly increases and (energy, g) never decreases |
| `GfallLevels.CulledNumbersDense` | carsus/io/kurucz/gfall.py:611-613 | every number up to a level's level_number is used by its ion, so numbers are 0..n−1 |
| `GfallLevels.SameIonOrder` | carsus/io/kurucz/gfall.py:610 | within an ion, the sort order is the (energy, g) order |
| `GfallLevels.CreateArtificialFullyIonized` | carsus/io/kurucz/gfall.py:501-515 | one artificial level per distinct atomic_number in ascending order (level_id −1, ion_number = atomic_number, level_number 0, energy 0, g 1, metastable) |
| `GfallLevels.ElementNumbersSpec` | carsus/io/kurucz/gfall.py:505 | the groups are exactly the atomic numbers present, strictly ascending |
| `GfallLevels.ArtificialMembers` | carsus/io/kurucz/gfall.py:505-508 | an element has levels iff its artificial level is created |
| `GfallLevels.FinalLevelsSpec` | carsus/io/kurucz/gfall.py:620-623 | the final table is a permutation of culled ++ artificial, sorted by (atomic_number, ion_number, level_number); metastable levels are exactly artificial ones; an artificial level exists iff its element has levels |
| `GfallLevels.ArtificialCount` | carsus/io/kurucz/gfall.py:505-508 | over ascending atomic numbers, each artificial level is built at most once |
| `GfallLevels.ArtificialOnce` | carsus/io/kurucz/gfall.py:620-623 | the final table holds exactly one artificial level per element present and none otherwise |
| `GfallLevels.ArtificialAfter` | carsus/io/kurucz/gfall.py:623 | the artificial level comes after every level of its element with a smaller ion_number |
| `GfallLines.ResolveLine` | carsus/io/kurucz/gfall.py:533-542 | succeeds iff both indices exist and are positions of the ion's slice; the ids are the level_ids at those positions |
| `GfallLines.ResolveLinesSpec` | carsus/io/kurucz/gfall.py:531-546 | an ion's lines resolve iff each does, elementwise, in order |
| `GfallLines.ResolveLinesOk` | carsus/io/kurucz/gfall.py:533-539 | one line that fails makes the whole ion fail |
| `GfallLines.LinesErrorSticks` | carsus/io/kurucz/gfall.py:533-539 | the first failing line decides the error |
| `GfallLines.IonsErrorSticks` | carsus/io/kurucz/gfall.py:523-527 | the first failing ion decides the error |
| `GfallLines.ResolveLinesKeeps` | carsus/io/kurucz/gfall.py:524-546 | the resolved lines are the ion's lines, in order, each with its own resolution |
| `GfallLines.ResolveIonsOk` | carsus/io/kurucz/gfall.py:523-546 | all ions resolve iff each has lines, a nonempty slice and only resolvable lines |
| `GfallLines.ResolveIonsLines` | carsus/io/kurucz/gfall.py:523-548 | the concatenation holds the selected ions' lines, ion by ion, each resolved against its ion's slice |
| `GfallLines.Finish` | carsus/io/kurucz/gfall.py:549-566 | line i gets line_id i + 1 and its derived columns |
| `GfallLines.LinesDataSpec` | carsus/io/kurucz/gfall.py:548-566 | succeeds iff the ion list is nonempty and resolvable; then line_id 1..n over the selected lines, gf copied, loggf = log10 gf, wavelength in vacuum Å, and each line's lower and upper level_id are those at its level_index positions in its ion's slice of `_levels_all` |
| `GfallLines.GetAllLinesData` | carsus/io/kurucz/gfall.py:517-568 | the nested loops compute the `_get_all_lines_data` table or its error |
| `GfallLines.ResolvedLevels` | carsus/io/kurucz/gfall.py:527-539 | when the slice lines up with the ion's reader levels, each resolved id is the `_levels_all` row of the level with that level_index |
| `Gfall.GfallParser.constructor` | carsus/io/kurucz/gfall.py:484-488 | a fresh reader with the default identifier, then `_levels_all` and `levels` built as `_create_levels_lines` does; the reader's levels carry g |
| `Gfall.GfallParser.GetAllLevelsData` | carsus/io/kurucz/gfall.py:570-595 | writes g into the reader's cached levels and returns `_levels_all` |
| `Gfall.GfallParser.CreateLevelsLines` | carsus/io/kurucz/gfall.py:597-626 | sets `_levels_all` and `levels` to the cull, numbering and artificial levels of the reader's data |
| `Gfall.GfallParser.GetAllLinesData` | carsus/io/kurucz/gfall.py:517-568 | caches the reader's lines and returns their remapped table; the reader's levels cache, g column included, is left as it was |
| `Gfall.ReaderLinesResolved` | carsus/io/kurucz/gfall.py:306-317 | every line of the reader has both level indices |
| `Ingest.MediumOf` | carsus/io/kurucz/gfall.py:451 | vacuum iff wavelength ≤ 200 nm, air iff above |
| `Ingest.MediumAgrees` | carsus/io/kurucz/gfall.py:556-564 | GFALL converts air to vacuum exactly on the lines the ingester marks as air |
| `Ingest.JoinIonsCount` | carsus/io/kurucz/gfall.py:386-390 | with a duplicate-free ion list, a row is kept as often as the table has it if its ion is listed, else dropped |
| `Ingest.SelectIonsSpec` | carsus/io/kurucz/gfall.py:422-426 | without an ion list every row is kept; with one, the join keeps exactly the rows of listed ions |
| `Tables.SortBy` | carsus/io/kurucz/gfall.py:247-248 | sorting is a permutation |
| `Tables.SortBySorted` | carsus/io/kurucz/gfall.py:247-248 | the sorted table is ordered by the key |
| `Tables.SortedUnique` | carsus/io/kurucz/gfall.py:623 | with distinct keys the sorted permutation is unique |
| `Tables.DropDuplicatesFirstSpec` | carsus/io/kurucz/gfall.py:246 | distinct keys, every key kept, each kept row the first of its key |
| `Tables.DropDuplicatesLastSpec` | carsus/io/kurucz/gfall.py:593 | distinct keys, every key kept, each kept row the last of its key |
| `Tables.RankDense` | carsus/io/kurucz/gfall.py:254-255 | the per-group rank is below the group size and strictly increasing within a group |
| `Tables.RankReached` | carsus/io/kurucz/gfall.py:611-612 | every rank below the group size is reached |
| `Tables.Members` | carsus/io/kurucz/gfall.py:524-527 | `.loc[ion]` holds exactly the rows of that ion, as many as the ion has |
| `Tables.MembersIsFilter` | carsus/io/kurucz/gfall.py:524-527 | `.loc[ion]` is the ion's rows in table order: the table filtered on the ion |
| `Tables.MembersRanked` | carsus/io/kurucz/gfall.py:527-529 | when each row's position is its rank in the ion, the slice's k-th row has position k |
| `Tables.JoinIons` | carsus/io/kurucz/gfall.py:576-579 | the inner join keeps exactly the rows whose ion is listed |
| `Tables.JoinIonsDistinct` | carsus/io/kurucz/gfall.py:576-579 | with a duplicate-free ion list the join is an order-preserving filter |

## Left out

- `pd.read_fwf` and reading the file: the file is the constructor's sequence of records and blank lines, so NaN cells and partially blank records are not modelled.
- Floating-point maths is not modelled: 10**loggf, log10, the astropy cm⁻¹→eV conversion, nm→Å and `convert_wavelength_air2vacuum` are given functions.
- `_create_ionization_data` and `parse_selected_species` are not part of this model. Ions, ionization energies and ground levels are constructor inputs. Ground levels are taken to have exactly the four compared columns.
- `GFALLIngester` persistence is left out: sessions, `DataSource`, `Ion`, `get_lvl_index2id` and `ingest` are database work. Only the ion selection and the medium rule are modelled.
- Logging and `print` calls are left out.
- Pass-through columns are not carried: the hyperfine and isotope columns beyond the paired ones, and the column order of the pandas frames.
- `Normalize.SplitElementCode` takes the element code as an exact count of hundredths. Codes with more than two decimals, and float rounding of the code, are not modelled.
- `Reader.GfallReader.ExtractLevelsFrom` and `Reader.GfallReader.ExtractLinesFrom` use the default column selections only. A caller's `selected_columns` is not modelled.
- Identifier attributes are limited to energy, j and label.
- `GfallLines.ResolvedLevels` holds only when the ion's slice of `_levels_all` lines up with the ion's reader levels. In general the positional lookup can pick the wrong row, and the model keeps that behaviour as written.
- `Ingest.JoinIonsCount` and `Ingest.SelectIonsSpec` require a duplicate-free ion list. A repeated ion would repeat its rows once per repetition.
- `Ingest.SelectIons`, `Ingest.IngestLevels` and `Ingest.IngestLines` are modelled only up to row order. Pandas' inner join on the ion key groups the rows by ion in order of first appearance, while the model keeps table order; only which rows are kept, and how often, is proved.
- `GfallLines.ResolveLine` and `GfallLines.ResolvedLevels` do not model the Series case of `_levels_all.set_index(['atomic_number', 'ion_number']).loc[ion]`: when that index is unique, pandas returns a Series and `.reset_index()[['level_id']]` raises KeyError, while the model resolves the line against a one-row slice.
- carsus/io/tests/test_output_tardis.py is not part of this model. It exercises another module against a database.
