/**
  `namesDict` once the dump has been decoded (main.go:133-258): count the
  first names of all `name` fields, rank them by count, keep the top N and
  print every variant of every kept name.
*/
module Wordlist {
  import opened Base
  import opened NameField
  import opened Histogram
  import opened Ranking
  import opened Suffixes
  import opened Variants

  /** The settings `count`, `digits` and `special-chars` (main.go:84-86). */
  datatype Config = Config(count: int, digits: int, specialChars: string)

  /**
    The lines printed by `namesDict`. `ranked` stands for `final` after
    `sort.Sort` (main.go:205): Go fixes neither the map's iteration order
    nor the order of equal counts, so any ranking of the histogram may be
    passed. The run panics exactly when `count` exceeds the number of
    distinct first names.
  */
  function NamesDict(cf: CaseForms, records: seq<Record>, ranked: seq<Entry>, cfg: Config): (r: Result<seq<string>, Panic>)
    requires IsRanking(FirstnameHist(cf.lower, records), ranked)
    ensures r.Fail? <==> cfg.count > |FirstnameHist(cf.lower, records)|
    ensures r.Ok? ==>
      |r.value| == (if cfg.count <= 0 then |FirstnameHist(cf.lower, records)| else cfg.count)
                   * (3 * (DigitTableSize(cfg.digits) * (|cfg.specialChars| + 1)))
  {
    TopNKeepsHighest(FirstnameHist(cf.lower, records), ranked, cfg.count);
    match TopN(ranked, cfg.count)
    case Fail(e) => Fail(e)
    case Ok(final) =>
      var lines := Expand(cf, final, DigitTable(cfg.digits), CharCombs(cfg.specialChars));
      DigitTableLength(cfg.digits);
      Ok(lines)
  }

  /**
    `line` is a case form of a kept name followed by an entry of the digit
    table and an entry of the special table.
  */
  predicate IsVariant(cf: CaseForms, kept: seq<Entry>, cfg: Config, line: string) {
    exists n, k, i, j ::
      && 0 <= n < |kept| && 0 <= k < 3
      && 0 <= i < |DigitTable(cfg.digits)| && 0 <= j < |CharCombs(cfg.specialChars)|
      && line == Form(cf, k, kept[n].firstname) + DigitTable(cfg.digits)[i] + CharCombs(cfg.specialChars)[j]
  }

  /** The output for the kept names holds exactly their variants. */
  lemma VariantsPrinted(cf: CaseForms, kept: seq<Entry>, cfg: Config)
    ensures forall line :: line in Expand(cf, kept, DigitTable(cfg.digits), CharCombs(cfg.specialChars))
                           <==> IsVariant(cf, kept, cfg, line)
  {
    forall line
      ensures line in Expand(cf, kept, DigitTable(cfg.digits), CharCombs(cfg.specialChars))
              <==> IsVariant(cf, kept, cfg, line)
    {
      ExpandMembership(cf, kept, DigitTable(cfg.digits), CharCombs(cfg.specialChars), line);
    }
  }

  /**
    When the cut fits, the run prints the outer product of the top-`count`
    prefix of the ranking: a line is printed exactly when it is a variant
    of a kept name. Which names are kept is stated by `TopNKeepsHighest`.
  */
  lemma OutputFromHistogram(cf: CaseForms, records: seq<Record>, ranked: seq<Entry>, cfg: Config)
    requires IsRanking(FirstnameHist(cf.lower, records), ranked)
    requires cfg.count <= |FirstnameHist(cf.lower, records)|
    ensures TopN(ranked, cfg.count).Ok?
    ensures NamesDict(cf, records, ranked, cfg)
         == Ok(Expand(cf, TopN(ranked, cfg.count).value, DigitTable(cfg.digits), CharCombs(cfg.specialChars)))
    ensures forall line :: line in NamesDict(cf, records, ranked, cfg).value
                           <==> IsVariant(cf, TopN(ranked, cfg.count).value, cfg, line)
  {
    ListsItemsLength(FirstnameHist(cf.lower, records), ranked);
    VariantsPrinted(cf, TopN(ranked, cfg.count).value, cfg);
  }

  /** With digit width 0 and no special characters, a name is printed once per case form. */
  lemma PlainOutput(cf: CaseForms, e: Entry)
    ensures Expand(cf, [e], DigitTable(0), CharCombs(""))
         == [cf.lower(e.firstname), cf.upper(e.firstname), cf.title(e.firstname)]
  {
    var dt, cc := DigitTable(0), CharCombs("");
    assert dt == [""];
    var out := Expand(cf, [e], dt, cc);
    forall k | 0 <= k < 3
      ensures out[k] == Form(cf, k, e.firstname)
    {
      ExpandAt(cf, [e], dt, cc, 0, k, 0, 0);
      assert Position(0, k, 0, 0, 1, 1) == k;
      assert Form(cf, k, e.firstname) + "" + "" == Form(cf, k, e.firstname);
    }
  }

  /**
    With digit width 2 and the special set "!", one name gives
    (1 + 10 + 100) * 2 = 222 lines per case form, 666 in all.
  */
  lemma CountExample(cf: CaseForms, e: Entry)
    ensures |Expand(cf, [e], DigitTable(2), CharCombs("!"))| == 666
  {
    DigitTableLength(2);
  }
}
