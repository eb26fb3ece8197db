# GeneSeekr location consolidation, best-hit selection and alignment text, in Dafny

This project models the core of `geneseekr/geneseekr.py`. The BLAST reports are taken as rows that have already been read.

- **Hits** (`hits.dfy`): the hit derived from one tabular BLAST row. This covers:
  - the effective subject length, which is divided by 3 for the translated programs;
  - percent identity and alignment fraction, in integer hundredths of a percent;
  - `low`/`high` as the smaller and larger query coordinate;
  - the strand, with the reverse complement of the query sequence when the subject runs backwards (`dna.dfy`).
- **Consolidation** (`consolidation.dfy`): the per-contig list of locations that `unique_parse_blast` mutates in place.
  - Every stored spot is compared with the new `[low, high]` and takes the first of five 100-base rules that applies.
  - No spot is skipped.
  - The pair is appended only when no spot matched.
  - `MergeSpots` is that loop with its `append` flag. `Consolidate`/`Build` are the functions it is proved against.
- **UniqueParse** (`unique_parse.dfy`): the parser state as a class, `BlastParse`.
  - `AddHit` is the body of the row loop for a qualifying row. `UniqueParseBlast` is the whole loop.
  - After every row, the state equals pure functions of the rows read so far:
    - `ContigOrder`, the first-seen key order;
    - `Summary`, the location list, `querypercent`, `queryscore` and row list of a contig;
    - `TargetSequences`.
- **FilterUnique** (`filter_unique.dfy`): grouping and selection.
  - A contig's rows are filed under every location whose half-open range they share a base with (`GroupContig`).
  - Each location then keeps the first row with the group's top identity whose gene was not yet kept on that contig (`KeepBest`, `SelectContig`).
  - `results` maps each kept gene to the identity of its last kept row (`Record`).
- **Alignment** (`alignment.dfy`): the text helpers of `alignprotein` and `interleaveblastresults`:
  - gap stripping;
  - codon trimming;
  - the `|`/space match line;
  - the `;`-separated mismatch index, which the loop's `count` breaks into lines;
  - the 60-column interleaved layout.
- **Decimal** (`decimal.dfy`): `str(n)`, `'{:04d}'` and a reader of `;`-terminated numerals.
  - The reader is used to state that the index and the block headers read back to their numbers.

Design points where this model departs from the program's shape or from its documentation:

- `queryranges`, `querypercent`, `queryscore` and `results` always gain and keep the same keys (geneseekr/geneseekr.py:465-506). They are one map from contig to a `ContigEntry` record, plus `contigs`, the key order that the later `for contig in queryranges` loop follows.
- A report row in `results` and `blastlist` is represented by its `Hit`: contig, subject, the derived bounds, identity, alignment fraction and orientation, the bit score and the raw `query_sequence`. The other report columns are not carried. As in the program (geneseekr/geneseekr.py:465, 506, 598), the row keeps its query sequence as read. The reverse complement of a reverse-strand hit (`Hits.Oriented`) is stored only in `targetSequence` (line 519).
- A location is keyed by its `Span`, not by the string `'lo,hi'`.
  - The decimal rendering of a pair is injective, so the keys are the same.
  - Two spots can become equal after widening. They then share one key, and the rows are filed under it once per occurrence. `GroupContents` states this.
- Percent identity in `unique_parse_blast` is `positives / subject_length * 100` with no gap term (geneseekr/geneseekr.py:450), although the comment on line 449 speaks of mismatches. The program's other parsers, `parse_blast` (line 293) and `sixteens_parser` (line 359), subtract `gaps` from `positives`. The model follows the code of `unique_parse_blast`.
- Best-hit selection has no fallback to a lower identity when the top rows' genes are all taken (`NoLowerFallback`). Genes are kept unique per contig only, so `blastlist` can hold one gene on two contigs. In `results`, the later contig's value wins.
- The index comment speaks of a break every 10 mismatches. The loop writes eleven entries per line: the break comes before the 12th, 23rd, 34th ... entry. The model follows the loop.

## Model

| member | source | states |
|---|---|---|
| `Hits.LengthDivisor` | geneseekr/geneseekr.py:444-447 | the subject length is kept (divisor 1) exactly for blastn, blastp and blastx, and divided by 3 otherwise |
| `Hits.Nearest` | geneseekr/geneseekr.py:450 | the result is the integer nearest to num/den, halves rounded up |
| `Hits.Hundredths` | geneseekr/geneseekr.py:450-461 | a ratio over the effective subject length, in hundredths of a percent, rounded to the nearest hundredth |
| `Hits.Derive` | geneseekr/geneseekr.py:444-517 | contig, subject and score are copied from the row; `low <= high` are the two query coordinates; the hit is reversed iff `subject_end < subject_start`; the raw query sequence is kept unchanged; the identity uses positives only |
| `Hits.Oriented` | geneseekr/geneseekr.py:510-517 | the sequence stored in `targetsequence`: the reverse complement on the reverse strand, the query sequence otherwise; the reference definition that `OrientedRoundTrip` and `DeriveOrientation` characterize |
| `Hits.OrientedRoundTrip` | geneseekr/geneseekr.py:510-517 | the sequence stored for a hit (`Oriented`) has the query's length; on the reverse strand, reverse-complementing it gives back the query sequence; otherwise it is the query sequence |
| `Hits.DeriveOrientation` | geneseekr/geneseekr.py:508-519 | a row with `subject_end < subject_start` stores the reverse complement of its query sequence in `targetsequence`, any other row the query sequence itself |
| `Dna.ReverseComplement` | geneseekr/geneseekr.py:512-514 | the reverse complement keeps the length |
| `Dna.Complement` | geneseekr/geneseekr.py:512-514 | the base complement A↔T, C↔G in either case, other characters kept; `ComplementInvolution` and `ReverseComplementInvolution` characterize it |
| `Dna.ReverseComplementInvolution` | geneseekr/geneseekr.py:512-514 | applying the reverse complement twice gives the sequence back |
| `Decimal.Pad4Shape` | geneseekr/geneseekr.py:1433-1434 | `'{:04d}'` gives at least four digits, and exactly four below 10000 |
| `Decimal.Pad4ReadsBack` | geneseekr/geneseekr.py:1433-1434 | the zero-padded offset reads back as the number it was made from |
| `Decimal.ScanNumeral` | geneseekr/geneseekr.py:1372 | `str(n)` reads back as n |
| `Decimal.Numeral` | geneseekr/geneseekr.py:1372 | `str(n)`: a non-empty string of digits with no leading zero unless n is 0 |
| `Decimal.Pad4` | geneseekr/geneseekr.py:1433-1434 | `'{:04d}'`, the reference definition that `Pad4Shape` and `Pad4ReadsBack` characterize |
| `Consolidation.Updated` | geneseekr/geneseekr.py:472-484 | a compared spot only widens: at most one bound moves, the low bound only down to `low` by 1 to 100, the high bound only up to `high` by 1 to 100, and only when a rule matched |
| `Consolidation.RuleFor` | geneseekr/geneseekr.py:474-493 | the five-way `if`/`elif` chain picking which rule, if any, a spot takes for a hit; the reference definition that `Updated` and `AnyMatchAt` characterize |
| `Consolidation.AnyMatchAt` | geneseekr/geneseekr.py:472-493 | the `append` flag is cleared iff some spot satisfies one of the five conditions |
| `Consolidation.Consolidate` | geneseekr/geneseekr.py:466-496 | one hit's pass over the location list: every spot updated in place, then `[low, high]` appended iff no spot matched; the reference definition that `ConsolidateShape` characterizes and `MergeSpots` is proved against |
| `Consolidation.ConsolidateShape` | geneseekr/geneseekr.py:467-496 | the list grows by exactly `[low, high]` iff no spot matches, otherwise its length is unchanged; every existing spot is updated in place |
| `Consolidation.MergeSpots` | geneseekr/geneseekr.py:466-496 | the loop over all spots with its `append` flag yields the consolidated list, and `append` holds iff no spot matched |
| `Consolidation.ConsolidateKeepsOrdered` | geneseekr/geneseekr.py:472-496 | consolidating an ordered pair into ordered spots keeps every spot ordered |
| `Consolidation.Build` | geneseekr/geneseekr.py:464-506 | the location list has at most one spot per hit and is empty iff there are no hits |
| `Consolidation.FirstHitStartsList` | geneseekr/geneseekr.py:500-506 | the first qualifying hit on a contig gives the list `[[low, high]]` |
| `Consolidation.BuildBoundsFromHits` | geneseekr/geneseekr.py:472-506 | every bound of a stored spot is a bound of some hit |
| `Consolidation.BuildOrdered` | geneseekr/geneseekr.py:453-506 | with `low <= high` for each hit, every stored spot is ordered |
| `Consolidation.WideningExamples` | geneseekr/geneseekr.py:469-471 | `[2494, 3296]` with `[2493, 3293]` becomes `[2493, 3296]`; with `[3296, 4132]` the list gains a second spot |
| `Consolidation.EverySpotVisited` | geneseekr/geneseekr.py:472-493 | the loop does not stop at the first matching spot: two spots widen for one hit |
| `Consolidation.OrderSensitive` | geneseekr/geneseekr.py:472-496 | the same three hits in two orders give different location lists |
| `UniqueParse.Qualifying` | geneseekr/geneseekr.py:463 | the hits kept for a contig all belong to it, reach the cutoff and are ordered |
| `UniqueParse.Founder` | geneseekr/geneseekr.py:495-504 | `querypercent`/`queryscore` come from one of the contig's hits |
| `UniqueParse.Summary` | geneseekr/geneseekr.py:464-506 | a contig's entry holds all its qualifying rows, a non-empty location list and the identity and score of its founder hit |
| `UniqueParse.ContigOrder` | geneseekr/geneseekr.py:465-506 | the key order of `queryranges`: each contig once, when its first qualifying row is read; `ContigOrderDistinct` and `OrderStep` characterize it and `UniqueParseBlast` is proved against it |
| `UniqueParse.TargetSequences` | geneseekr/geneseekr.py:507-519 | `targetsequence`: each subject maps to the oriented sequence of its last qualifying row; `OrderStep` characterizes it and `UniqueParseBlast` is proved against it |
| `UniqueParse.Absorbs` | geneseekr/geneseekr.py:464-506 | the effect of one qualifying row on the contig table: only its own contig's entry changes, as the `try` or the `except KeyError` branch; `AbsorbsSummary`, `TracksStep` and `ReadStep` characterize it and `AddHit` is proved against it |
| `UniqueParse.BlastParse.constructor` | geneseekr/geneseekr.py:429-433 | the per-sample dictionaries start empty |
| `UniqueParse.BlastParse.AddHit` | geneseekr/geneseekr.py:464-519 | a qualifying hit changes only its own contig's entry: a new contig gets `[[low, high]]`, its identity, score and row and joins the key order; otherwise the row is appended, the locations are consolidated, and identity and score change iff the pair was appended; the subject's target sequence becomes the hit's oriented sequence, while the stored row keeps its raw query sequence |
| `UniqueParse.SummaryFirst` | geneseekr/geneseekr.py:500-506 | the summary of a single hit is the entry the `KeyError` branch creates |
| `UniqueParse.SummaryStep` | geneseekr/geneseekr.py:465-498 | one more hit moves a contig's summary exactly as the `try` branch moves its entry |
| `UniqueParse.TracksStep` | geneseekr/geneseekr.py:441-506 | reading one row keeps the table equal to the summaries of the rows read so far |
| `UniqueParse.OrderStep` | geneseekr/geneseekr.py:463-519 | reading one row extends the key order and the target sequences by that row alone |
| `UniqueParse.ReadStep` | geneseekr/geneseekr.py:441-519 | reading one row, through `AddHit` when it reaches the cutoff, keeps the key order, the target sequences and the table equal to what the rows read so far determine |
| `UniqueParse.UniqueParseBlast` | geneseekr/geneseekr.py:427-523 | after all rows, exactly the contigs with a qualifying row have an entry, in first-seen order, each the summary of its qualifying hits, and the target sequences are those of the last qualifying row per subject |
| `UniqueParse.ContigOrderDistinct` | geneseekr/geneseekr.py:465-506 | each contig appears once in the key order, and exactly the contigs with a qualifying row appear |
| `UniqueParse.SummaryOrdered` | geneseekr/geneseekr.py:453-506 | every stored location of a contig has `lo <= hi` |
| `FilterUnique.OverlapsIffSharedBase` | geneseekr/geneseekr.py:553-561 | `max(low, lo) < min(high, hi)` iff the half-open ranges share a base |
| `FilterUnique.Overlaps` | geneseekr/geneseekr.py:553-561 | the overlap test of a row and a location, which `OverlapsIffSharedBase` equates with sharing a base |
| `FilterUnique.Matching` | geneseekr/geneseekr.py:545-561 | the contig's rows that overlap one location, in row order; `MatchingMembers` characterizes it |
| `FilterUnique.FileLocation` | geneseekr/geneseekr.py:543-580 | filing one location's overlapping rows under its key, starting the key on its first row; `GroupDomain`, `GroupOrder` and `GroupContents` characterize the grouping it builds |
| `FilterUnique.Group` | geneseekr/geneseekr.py:541-580 | the grouping of a contig's rows by location, the reference definition that `GroupDomain`, `GroupOrder` and `GroupContents` characterize and `GroupContig` is proved against |
| `FilterUnique.BackToBack` | geneseekr/geneseekr.py:553-557 | 2557-3393 and 3393-4196 do not overlap |
| `FilterUnique.MatchingMembers` | geneseekr/geneseekr.py:545-561 | a row is filed under a location iff it is one of the contig's rows and overlaps it |
| `FilterUnique.GroupDomain` | geneseekr/geneseekr.py:541-580 | a location has a group iff it is one of the contig's locations and some row overlaps it |
| `FilterUnique.GroupOrder` | geneseekr/geneseekr.py:562-580 | the key order lists each grouped location once, and no group is empty |
| `FilterUnique.GroupContents` | geneseekr/geneseekr.py:543-580 | a location's group is its overlapping rows in row order, repeated once per occurrence of the location in the list |
| `FilterUnique.GroupContig` | geneseekr/geneseekr.py:541-580 | the nested loops over locations and rows build the grouping of the contig |
| `FilterUnique.MaxPercentIsMax` | geneseekr/geneseekr.py:595 | `max` of the group bounds every row's identity and is attained by one row |
| `FilterUnique.MaxPercent` | geneseekr/geneseekr.py:595 | `max(resultdict[contig][location])`; `MaxPercentIsMax` characterizes it |
| `FilterUnique.FirstEligible` | geneseekr/geneseekr.py:593-601 | the index found is the first row with the top identity and an untaken gene, or the end |
| `FilterUnique.Best` | geneseekr/geneseekr.py:591-601 | at most one row is kept per location |
| `FilterUnique.NoLowerFallback` | geneseekr/geneseekr.py:593-601 | when the top row's gene is taken, a lower row with a fresh gene is not kept |
| `FilterUnique.Select` | geneseekr/geneseekr.py:586-601 | the rows a contig keeps never outnumber its locations |
| `FilterUnique.SelectPerLocation` | geneseekr/geneseekr.py:589-601 | each location, in key order, adds at most one row, taken from its own group, after the rows of the earlier locations |
| `FilterUnique.SelectDistinct` | geneseekr/geneseekr.py:587-600 | no two kept rows on one contig share a gene |
| `FilterUnique.SelectChosen` | geneseekr/geneseekr.py:593-598 | every kept row belongs to the group of one of the contig's locations and has that group's top identity |
| `FilterUnique.KeepBest` | geneseekr/geneseekr.py:591-601 | the loop with its `multiple` flag appends the best row of the location to `blastlist`, `results` and `genes`, or nothing |
| `FilterUnique.SelectContig` | geneseekr/geneseekr.py:586-601 | the selection loops of one contig append its kept rows to `blastlist` and record them in `results` |
| `FilterUnique.RecordKeys` | geneseekr/geneseekr.py:584-603 | the genes in `results` are exactly the kept genes |
| `FilterUnique.Record` | geneseekr/geneseekr.py:584-603 | the `results.update` calls in order, the reference definition that `RecordKeys` and `RecordLast` characterize |
| `FilterUnique.RecordLast` | geneseekr/geneseekr.py:599 | each gene maps to the identity of the last row kept for it |
| `FilterUnique.SelectOfTop` | geneseekr/geneseekr.py:586-601 | a kept row overlaps one of the contig's locations and has the top identity among all rows that overlap it |
| `FilterUnique.SelectOf` | geneseekr/geneseekr.py:586-601 | the rows one contig contributes to `blastlist`; `SelectOfTop` characterizes it and `SelectContig` is proved against its parts |
| `FilterUnique.Grouped` | geneseekr/geneseekr.py:541-580 | the contigs that get a `resultdict` entry, in key order: those with a row overlapping one of their locations; `FilterUniqueSample` is proved against it |
| `FilterUnique.BlastList` | geneseekr/geneseekr.py:584-601 | `blastlist`: the kept rows of each grouped contig, contig by contig; `FilterUniqueSample` is proved against it |
| `FilterUnique.FilterUniqueSample` | geneseekr/geneseekr.py:533-603 | `blastlist` is the kept rows of every grouped contig in key order, and `blastresults` maps each kept gene to its last kept identity |
| `Alignment.StripGaps` | geneseekr/geneseekr.py:1324-1325 | no gap is left and nothing is added |
| `Alignment.StripGapsAppend` | geneseekr/geneseekr.py:1324-1325 | stripping works piece by piece, so the other characters keep their order |
| `Alignment.StripGapsSingle` | geneseekr/geneseekr.py:1324-1325 | a gap disappears and any other character stays |
| `Alignment.StripGapsGapFree` | geneseekr/geneseekr.py:1324-1325 | a sequence without gaps is unchanged |
| `Alignment.StripGapsIdempotent` | geneseekr/geneseekr.py:1324-1325 | stripping twice is stripping once |
| `Alignment.PrefixTo` | geneseekr/geneseekr.py:1331 | Python's `s[:stop]` is a prefix of s |
| `Alignment.TrimSample` | geneseekr/geneseekr.py:1329-1331 | the trimmed sequence is a prefix, a multiple of 3 long, and at most 2 shorter |
| `Alignment.TrimReference` | geneseekr/geneseekr.py:1342-1344 | the same for the reference, with the `% 3` test |
| `Alignment.TrimsAgree` | geneseekr/geneseekr.py:1329-1344 | both trims keep the prefix of length `len - len % 3` |
| `Alignment.SampleSequence` | geneseekr/geneseekr.py:1324-1337 | the sample sequence is gap-free, and for blastn it is the stripped sequence trimmed to whole codons |
| `Alignment.ReferenceSequence` | geneseekr/geneseekr.py:1340-1344 | the reference is trimmed to whole codons exactly for blastn, tblastn and tblastx |
| `Alignment.MatchLine` | geneseekr/geneseekr.py:1362-1363 | the match line is as long as the shorter aligned line |
| `Alignment.MatchLineAt` | geneseekr/geneseekr.py:1384-1385 | the match line has `|` exactly where the aligned characters agree and a space elsewhere |
| `Alignment.SpacePositions` | geneseekr/geneseekr.py:1369 | the starts of `re.finditer(' ', line)` in order; `SpacePositionsSound`, `SpacePositionsIncreasing`, `SpacePositionsComplete` and `MismatchPositions` characterize it |
| `Alignment.SpacePositionsSound` | geneseekr/geneseekr.py:1369 | every listed position holds a space |
| `Alignment.SpacePositionsIncreasing` | geneseekr/geneseekr.py:1391 | positions are listed in increasing order |
| `Alignment.SpacePositionsComplete` | geneseekr/geneseekr.py:1369-1372 | every space is listed |
| `Alignment.MismatchPositions` | geneseekr/geneseekr.py:1362-1376 | the index lists a position iff both lines reach it and differ there |
| `Alignment.SnpIndex` | geneseekr/geneseekr.py:1366-1376 | the loop with its `count` writes every space position with `;`, breaking the line before the 12th, 23rd, 34th ... entry |
| `Alignment.SnpText` | geneseekr/geneseekr.py:1366-1376 | the index text entry by entry, the reference definition that `SnpReadsBack` and `SnpNewlines` characterize and `SnpIndex` is proved against |
| `Alignment.SnpEntry` | geneseekr/geneseekr.py:1371-1374 | entry j of the index: `str(p) + ';'`, preceded by `'\n'` exactly when j > 0 and j % 11 == 0; `SnpStep`, `SnpReadsBack` and `SnpNewlines` characterize it |
| `Alignment.SnpStep` | geneseekr/geneseekr.py:1389-1397 | `count` exceeds 10 exactly before entries 11, 22, 33 ... (counting from 0) |
| `Alignment.SnpReadsBack` | geneseekr/geneseekr.py:1389-1397 | reading the index back, skipping line breaks, gives the listed positions |
| `Alignment.SnpNewlines` | geneseekr/geneseekr.py:1371-1375 | an index of n entries holds `(n - 1) / 11` line breaks |
| `Alignment.BlockCount` | geneseekr/geneseekr.py:1422 | `range(0, n, 60)` has `ceil(n / 60)` elements |
| `Alignment.MatchString` | geneseekr/geneseekr.py:1409-1418 | the first loop builds the match line of query and subject |
| `Alignment.Layout` | geneseekr/geneseekr.py:1420-1436 | the second loop writes one block per started 60 columns, in order |
| `Alignment.Interleave` | geneseekr/geneseekr.py:1401-1438 | the result is the interleaved blocks of query, match line and subject |
| `Alignment.Interleaved` | geneseekr/geneseekr.py:1401-1438 | the match line, then one block per started 60 columns of the query; the reference definition that `Interleave` is proved against and the block lemmas characterize |
| `Alignment.Block` | geneseekr/geneseekr.py:1433-1434 | one block of the layout at offset j, with the source's format string; `BlockHeader`, `BlockQueryColumns`, `BlockMatches` and `BlockWidths` characterize it |
| `Alignment.Blocks` | geneseekr/geneseekr.py:1422-1436 | the first n blocks in order; `Layout` is proved against it and `QueryRecovered` reads the query back from its blocks |
| `Alignment.InterleaveEmpty` | geneseekr/geneseekr.py:1409-1438 | an empty query gives the empty string |
| `Alignment.BlockQueryColumns` | geneseekr/geneseekr.py:1433-1434 | block k's first line is the offset header, then exactly the query columns `60k` to `60k + 60`, then a line break |
| `Alignment.QueryRecovered` | geneseekr/geneseekr.py:1422-1436 | the query columns of all blocks, in order, give back the query |
| `Alignment.BlockWidths` | geneseekr/geneseekr.py:1433-1434 | every block but the last shows 60 query columns, the last between 1 and 60 |
| `Alignment.BlockMatches` | geneseekr/geneseekr.py:1412-1434 | each block's match line marks exactly the equal columns of the query and subject shown in it |
| `Alignment.BlockHeader` | geneseekr/geneseekr.py:1433-1434 | a block opens with its offset, zero-padded to four digits below 10000, then ` OLC ` |

## Left out

- Running BLAST, building databases and the command lines are outside the model. So are reading reports (`DictReader`, `csv.field_size_limit`) and reading sequence files. Rows arrive as values, and a missing report (`FileNotFoundError`) is an empty row list.
- The float formatting `'{:0.2f}'` of identity and alignment fraction is modelled as exact rounding of the rational to the nearest hundredth, with halves rounded up. Python formats the binary double and rounds halves to even, so a value exactly on a half-hundredth may differ by one hundredth. The cutoff is an integer number of hundredths.
- `subject_length` is required to be positive. The program divides by it without a guard.
- The complement maps A, C, G and T in either case and leaves every other character unchanged. Biopython also complements IUPAC ambiguity codes.
- `pairwise2.align.localxs`, `format_alignment` and `Seq.translate` are outside the model. The two aligned lines are inputs to the match line, the index and the layout. Translation to protein, `dnaseq`, `protseq` and the loop over target files are not modelled.
- `alignprotein` writes the gap-free string back into the sample's `targetsequence[target]` (geneseekr/geneseekr.py:1324-1325). The model computes that string (`Alignment.SampleSequence`) but does not model the overwrite of the per-sample dictionary entry or its effect on later readers of that dictionary.
- `aaidentity` (the float percentage of `|` in the amino-acid match line) is left out, being float formatting.
- In `filter_unique`, the outer `except KeyError` cannot fire. Every contig of `queryranges` has `results`, and `rowdict` always gets the contig with its first group.
- Reporters, `parse_blast`, `sixteens_parser`, `serotype_escherichia`, `dict_initialise` and `clean_object` are not part of this model. Neither are `bin/resfinder.py` and `setup.py`.
- Sample metadata objects are left out; the model covers one sample at a time.
