# names-dict wordlist core in Dafny

`names-dict` builds a password dictionary from first names. It reads the
`Personendaten` templates of a German Wikipedia dump and takes every `name`
field (`Müller, Anna Maria`). It splits the value on the first comma and
keeps the first word after it (`Anna`), counting how often each first name
occurs. It then sorts the names by count and keeps the top N. For every kept
name it prints the lower-case, upper-case and title-case form, each with
every zero-padded number of 0 to D digits and every configured special
character appended.

This project models `namesDict` in `main.go` once the dump has been decoded,
as pure functions over sequences. The modules are:

- `Base`: `Option`, `Result` and a few sequence facts.
- `NameField` (fields.dfy): the two `regexp.Split` calls on a `name` value and the first-name key they produce.
- `Histogram` (histogram.dfy): `firstnameHist` and the scan over all fields.
- `Ranking` (ranking.dfy): `FirstnameCount`, `Less`, the sort and the top-N cut, including its panic.
- `Suffixes` (suffixes.dfy): `digitCombs` and `charCombs`.
- `Variants` (variants.dfy): the three nested output loops.
- `Wordlist` (wordlist.dfy): `namesDict` end to end, from the parsed fields to the printed lines.

Go leaves two things open: the iteration order of the map and the order of
equal counts under `sort.Sort`. The model therefore takes the ranked list as
an argument, constrained by `IsRanking`. `Ranking.Rank` builds such a
ranking from any iteration order, and `Ranking.RankingExists` shows that one
exists for every histogram.

`strings.ToLower`, `strings.ToUpper` and `strings.Title` are passed in as
the three functions of a `CaseForms` value. The lower-case function also
decides which field keys equal `name`.

## Model

| member | source | states |
|---|---|---|
| NameField.CommaSplit | main.go:174 | Splitting on `\s*,\s*` yields groups and separators that rejoin to the value. Each separator is one comma with only whitespace around it. No group holds a comma or keeps whitespace next to a separator. There is exactly one separator per comma in the value. |
| NameField.DelimiterSplit | main.go:180 | Splitting on the delimiter class yields groups and one-character separators that rejoin to the text. Every separator is a delimiter, and no group contains one. |
| NameField.Firstname | main.go:174-186 | A value yields no key exactly when it has no comma. Otherwise the key is the longest delimiter-free prefix of the group after the first comma. That prefix may be empty. |
| NameField.SingleCommaGroups | main.go:174-175 | A value with a single comma splits into two groups. The second is the text after the comma minus the whitespace that follows it. |
| NameField.GivenPrefix | main.go:180-186 | Once the group after the comma is known, the key is its longest delimiter-free prefix and nothing else. |
| NameField.SurnameGiven | main.go:174-186 | `Surname, Given rest` yields `Given` when `rest` is empty or starts with a delimiter. |
| NameField.SurnameOnly | main.go:174-186 | `Surname, Given` with a delimiter-free given name yields the whole given name. |
| NameField.EmptyKey | main.go:180-186 | When the group after the comma starts with a non-space delimiter, the empty string is the key. The check at line 181 never rejects it. |
| NameField.FieldCandidate | main.go:171-172 | A field contributes a key exactly when its key lower-cases to `name` and its value holds a comma. The key is the value's `Firstname`. |
| Histogram.Observe | main.go:186 | `+= 1` raises the observed key's count by one, from the zero value if the key is new. It leaves every other count alone and adds only that key. |
| Histogram.Ingest | main.go:171-186 | One field changes the histogram exactly when it is a `name` field with a comma. The change is one observation of its key. |
| Histogram.TallyAdds | main.go:186 | Observing a sequence of keys, starting from any histogram, raises each key's count by its number of occurrences. |
| Histogram.TallyKeys | main.go:186 | Observing a sequence of keys adds exactly those keys to the map and removes none. |
| Histogram.TallyCounts | main.go:186 | After observing a sequence of keys, each key's count is its number of occurrences. The map holds exactly the observed keys. |
| Histogram.NoZeroCounts | main.go:186 | No key in the histogram has count 0. |
| Histogram.TallyAppend | main.go:162-188 | Counting two runs of keys one after the other is counting their concatenation. |
| Histogram.FieldCandidatesLength | main.go:164-188 | The fields of one record contribute at most one key each. |
| Histogram.FieldYields | main.go:164-188 | The key any field of a record yields is among the keys the record contributes. |
| Histogram.FieldSource | main.go:164-188 | Every key a record contributes is yielded by one of its fields, and the lemma names that field. |
| Histogram.RecordYields | main.go:136-193 | The key any field of any record yields is among the keys of the dump. |
| Histogram.RecordSource | main.go:136-193 | Every key of the dump is yielded by some field of some record, and the lemma names both. |
| Histogram.FirstnameHist | main.go:133-193 | Once every record is read, each first name is counted as often as `name` fields yield it. No other key is present. |
| Histogram.IngestRecord | main.go:162-188 | The loop over one record's fields observes exactly the keys the record contributes, in order. |
| Histogram.BuildHistogram | main.go:133-193 | The nested loop over records and fields computes exactly `FirstnameHist`. Every first name is counted as often as `name` fields yield it, and no other key is present. |
| Ranking.Less | main.go:59 | An entry sorts before another exactly when its count is larger. Equal counts are ordered neither way, so `sort.Sort` may place them in any order. |
| Ranking.SomeIteration | main.go:198 | Any set of keys can be visited in an order that lists each key exactly once. |
| Ranking.Collect | main.go:196-203 | Collecting the map in any iteration order lists every key once, with its count, and nothing else. |
| Ranking.Insert | main.go:205 | Inserting into a list sorted by `Less` keeps it sorted. The result holds exactly the old entries plus the new one. |
| Ranking.SortByCount | main.go:59 | Sorting by `Less` gives non-increasing counts and a permutation of the input. |
| Ranking.PermutationListsItems | main.go:205 | Sorting never loses, duplicates or alters a histogram item. |
| Ranking.Rank | main.go:196-205 | Collecting and sorting yields a ranking of the histogram, whatever the map's iteration order. |
| Ranking.RankingExists | main.go:196-205 | Every histogram has a ranking. |
| Ranking.ListsItemsLength | main.go:196 | A ranking has exactly one entry per distinct first name. |
| Ranking.TopN | main.go:207-209 | A positive `cnt` greater than the length panics with the slice bounds error. A positive `cnt` that fits keeps the first `cnt` entries. A `cnt` of zero or less keeps all. |
| Ranking.TopNKeepsHighest | main.go:207-209 | The cut panics exactly when `count` exceeds the number of distinct names. Otherwise the kept entries are sorted, distinct and items of the histogram. No omitted name has a higher count than any kept one. |
| Ranking.RankingTotal | main.go:198-205 | The counts of a ranking add up to the number of name fields that yielded a key. |
| Suffixes.PaddedDigits | main.go:218-221 | The `%0<w>d` text of any number is all digits and at least w long. It reads back as that number. |
| Suffixes.PaddedRoundTrip | main.go:218-221 | `%0wd` of a number below 10^w is exactly w digits and reads back as that number. |
| Suffixes.DigitTable | main.go:212-223 | The table starts with the empty suffix, so every name is also printed with no digits appended. Its other entries are placed by `DigitTableAt`. |
| Suffixes.DigitTableLength | main.go:215-223 | The digit table has 1 + 10 + ... + 10^digits entries. When `digits` is not positive it has 1. |
| Suffixes.DigitTableClosedForm | main.go:215-223 | That size is (10^(digits+1) - 1) / 9. |
| Suffixes.DigitTableAt | main.go:216-222 | Number i of width w sits at position 1 + 10 + ... + 10^(w-1) + i, zero-padded to width w. |
| Suffixes.DigitTableEntries | main.go:218-221 | Every entry after the leading "" is an all-digit string of width 1 to `digits`. Each is the padded form of its own value. |
| Suffixes.DigitTableDistinct | main.go:212-223 | No suffix appears twice in the digit table. |
| Suffixes.DigitCombs | main.go:212-223 | The loops with `maxNumber` build exactly the digit table. |
| Suffixes.CharCombs | main.go:226-231 | The special table is "" followed by each configured character as a one-character string, in order. |
| Suffixes.CharCombsJoin | main.go:229-231 | Joining the special table gives back the configured characters. |
| Variants.Expand | main.go:234-258 | Each kept name yields 3 * \|digitCombs\| * \|charCombs\| lines. Nothing is merged or dropped. |
| Variants.ExpandAt | main.go:234-258 | The line for name n, case form k, digit suffix i and special suffix j is at ((n * 3 + k) * \|digitCombs\| + i) * \|charCombs\| + j. That puts name outermost, then case form, then digits, then special character. |
| Variants.ExpandOnto | main.go:234-258 | Every printed line is a kept name's case form followed by a digit suffix and a special suffix. |
| Variants.ExpandContains | main.go:234-258 | Every such combination is printed. |
| Variants.ExpandMembership | main.go:234-258 | A line is printed if and only if it is such a combination. |
| Wordlist.NamesDict | main.go:195-258 | A run panics exactly when `count` exceeds the number of distinct first names. Otherwise it prints (number of kept names) * 3 * (1 + 10 + ... + 10^digits) * (\|special\| + 1) lines. |
| Wordlist.VariantsPrinted | main.go:234-258 | The output for any list of kept names holds exactly their variants: a case form of a kept name, then a digit suffix, then a special suffix. |
| Wordlist.OutputFromHistogram | main.go:207-258 | When `count` fits the number of distinct names, the run does not panic. It prints the output for the ranking's first `count` entries, or all of them when `count` <= 0. A line is printed exactly when it is a variant of a kept name. |
| Wordlist.PlainOutput | main.go:233-258 | With zero digits and no special characters, a name prints exactly its lower-, upper- and title-case forms, in that order. |
| Wordlist.CountExample | main.go:211-258 | With two digits and the special set `!`, one name prints (1 + 10 + 100) * 2 * 3 = 666 lines. |

## Left out

- Downloading, bzip2 decompression and XML decoding (main.go:115-160) are not modelled. Neither is the skipping of pages without revisions. The model starts from records of parsed fields.
- `PersonDataTemplateRegExpDE` and `TemplateFieldsRegExp` (main.go:26-27, 161-169) are not modelled. A field arrives as a key and a value already extracted. The field pattern drops blanks and quotes before the value. Its greedy `(.+)` leaves the trailing class empty, so trailing blanks and quotes stay in the value. Because `.` does not match a line break, the value also ends at the first newline. None of this extraction is part of this model.
- `strings.ToLower`, `strings.ToUpper` and `strings.Title` are parameters. Their Unicode case tables are not modelled.
- Flags, environment, config files, logging and the banner (main.go:62-113) are not modelled. `count`, `digits` and `special-chars` arrive as a `Config` value.
- `fmt.Println` is not modelled as I/O. The output is the sequence of printed lines.
- The iteration order of Go's map and the placement of equal counts by `sort.Sort` are not fixed. Any ranking is accepted, and `Ranking.Rank` exhibits one. No particular pattern-defeating quicksort order is modelled.
- Strings are sequences of Unicode code points. Invalid UTF-8 in the dump, and Go's handling of it in `range` over a string, are not modelled.
- Wordlist.NamesDict: integers are unbounded. The model therefore omits overflow of `int` counts, and `maxNumber *= 10` overflowing 64 bits at `digits` >= 19. When that overflow happens, in the pass for width 19, the table already holds 1 + 10 + ... + 10^18 (about 1.1 * 10^18) entries.
- Histogram keys are not case-normalized, as in the source. `Otto` and `otto` are counted separately.
