/**
  The output stage (main.go:233-258): every kept name is printed in three
  case forms, each followed by every digit suffix and, inside that, every
  special suffix. Nothing is deduplicated, even when two forms coincide.
*/
module Variants {
  import opened Ranking

  /**
    `strings.ToLower`, `strings.ToUpper` and `strings.Title`. Their Unicode
    case tables are not part of this model, so they are taken as given
    functions and nothing is assumed about them.
  */
  datatype CaseForms = CaseForms(lower: string -> string, upper: string -> string, title: string -> string)

  /** The case forms in output order: lower (main.go:236), upper (244), title (252). */
  function Form(cf: CaseForms, k: nat, name: string): string
    requires k < 3
  {
    if k == 0 then cf.lower(name) else if k == 1 then cf.upper(name) else cf.title(name)
  }

  /** The blocks' lines one block after the other, as consecutive `Println` calls produce them. */
  function Flatten(blocks: seq<seq<string>>): seq<string>
    decreases |blocks|
  {
    if |blocks| == 0 then [] else blocks[0] + Flatten(blocks[1..])
  }

  predicate Uniform(blocks: seq<seq<string>>, b: nat) {
    forall n :: 0 <= n < |blocks| ==> |blocks[n]| == b
  }

  lemma {:induction false} FlattenLength(blocks: seq<seq<string>>, b: nat)
    requires Uniform(blocks, b)
    ensures |Flatten(blocks)| == |blocks| * b
    decreases |blocks|
  {
    if |blocks| > 0 {
      FlattenLength(blocks[1..], b);
      assert (|blocks| - 1) * b + b == |blocks| * b;
    }
  }

  /** With blocks of `b` lines, line q of block n is line n * b + q of the whole. */
  lemma {:induction false} FlattenAt(blocks: seq<seq<string>>, b: nat, n: nat, q: nat)
    requires Uniform(blocks, b) && n < |blocks| && q < b
    ensures n * b + q < |Flatten(blocks)|
    ensures Flatten(blocks)[n * b + q] == blocks[n][q]
    decreases n
  {
    assert Flatten(blocks) == blocks[0] + Flatten(blocks[1..]);
    if n > 0 {
      FlattenAt(blocks[1..], b, n - 1, q);
      MulStep(n, b);
    }
  }

  lemma MulStep(n: nat, b: nat)
    requires n > 0
    ensures n * b == b + (n - 1) * b
  {
  }

  /** Every line of the whole is some line of some block. */
  lemma {:induction false} FlattenOnto(blocks: seq<seq<string>>, p: nat)
    requires p < |Flatten(blocks)|
    ensures exists n, q :: 0 <= n < |blocks| && 0 <= q < |blocks[n]| && Flatten(blocks)[p] == blocks[n][q]
    decreases |blocks|
  {
    if p >= |blocks[0]| {
      FlattenOnto(blocks[1..], p - |blocks[0]|);
      var n, q :| 0 <= n < |blocks| - 1 && 0 <= q < |blocks[1..][n]| &&
        Flatten(blocks[1..])[p - |blocks[0]|] == blocks[1..][n][q];
      assert blocks[1..][n] == blocks[n + 1];
    } else {
      assert Flatten(blocks)[p] == blocks[0][p];
    }
  }

  /** The lines for one prefix and every special suffix (the inner loops at main.go:238-240). */
  function WithSpecial(prefix: string, charCombs: seq<string>): (lines: seq<string>)
    ensures |lines| == |charCombs|
  {
    seq(|charCombs|, j requires 0 <= j < |charCombs| => prefix + charCombs[j])
  }

  function SuffixRows(form: string, digitCombs: seq<string>, charCombs: seq<string>): (rows: seq<seq<string>>)
    ensures |rows| == |digitCombs| && Uniform(rows, |charCombs|)
  {
    seq(|digitCombs|, i requires 0 <= i < |digitCombs| => WithSpecial(form + digitCombs[i], charCombs))
  }

  /**
    One case form with every digit suffix (outer loop) and every special
    suffix (inner loop), as in each loop pair of main.go:237-257.
  */
  function Suffixed(form: string, digitCombs: seq<string>, charCombs: seq<string>): seq<string> {
    Flatten(SuffixRows(form, digitCombs, charCombs))
  }

  lemma SuffixedLength(form: string, digitCombs: seq<string>, charCombs: seq<string>)
    ensures |Suffixed(form, digitCombs, charCombs)| == |digitCombs| * |charCombs|
  {
    FlattenLength(SuffixRows(form, digitCombs, charCombs), |charCombs|);
  }

  /** Line i * |charCombs| + j of a form's block is form + digitCombs[i] + charCombs[j]. */
  lemma SuffixedAt(form: string, digitCombs: seq<string>, charCombs: seq<string>, i: nat, j: nat)
    requires i < |digitCombs| && j < |charCombs|
    ensures i * |charCombs| + j < |Suffixed(form, digitCombs, charCombs)|
    ensures Suffixed(form, digitCombs, charCombs)[i * |charCombs| + j] == form + digitCombs[i] + charCombs[j]
  {
    FlattenAt(SuffixRows(form, digitCombs, charCombs), |charCombs|, i, j);
  }

  /** Every line of a form's block is the form with one digit suffix and one special suffix. */
  lemma SuffixedOnto(form: string, digitCombs: seq<string>, charCombs: seq<string>, p: nat)
    requires p < |Suffixed(form, digitCombs, charCombs)|
    ensures exists i, j :: 0 <= i < |digitCombs| && 0 <= j < |charCombs| &&
              Suffixed(form, digitCombs, charCombs)[p] == form + digitCombs[i] + charCombs[j]
  {
    var rows := SuffixRows(form, digitCombs, charCombs);
    FlattenOnto(rows, p);
    var i, j :| 0 <= i < |rows| && 0 <= j < |rows[i]| && Flatten(rows)[p] == rows[i][j];
    assert rows[i][j] == form + digitCombs[i] + charCombs[j];
  }

  /** The three blocks of one name: lower case, then upper case, then title case. */
  function FormBlocks(cf: CaseForms, name: string, digitCombs: seq<string>, charCombs: seq<string>): (blocks: seq<seq<string>>)
    ensures |blocks| == 3
    ensures forall k :: 0 <= k < 3 ==> blocks[k] == Suffixed(Form(cf, k, name), digitCombs, charCombs)
  {
    [Suffixed(cf.lower(name), digitCombs, charCombs),
     Suffixed(cf.upper(name), digitCombs, charCombs),
     Suffixed(cf.title(name), digitCombs, charCombs)]
  }

  /** All lines of one name (the body of the loop at main.go:234-258). */
  function NameLines(cf: CaseForms, name: string, digitCombs: seq<string>, charCombs: seq<string>): seq<string> {
    Flatten(FormBlocks(cf, name, digitCombs, charCombs))
  }

  lemma FormBlocksUniform(cf: CaseForms, name: string, digitCombs: seq<string>, charCombs: seq<string>)
    ensures Uniform(FormBlocks(cf, name, digitCombs, charCombs), |digitCombs| * |charCombs|)
  {
    forall k | 0 <= k < 3
      ensures |FormBlocks(cf, name, digitCombs, charCombs)[k]| == |digitCombs| * |charCombs|
    {
      SuffixedLength(Form(cf, k, name), digitCombs, charCombs);
    }
  }

  function NameBlocks(cf: CaseForms, final: seq<Entry>, digitCombs: seq<string>, charCombs: seq<string>): (blocks: seq<seq<string>>)
    ensures |blocks| == |final|
  {
    seq(|final|, n requires 0 <= n < |final| => NameLines(cf, final[n].firstname, digitCombs, charCombs))
  }

  lemma NameBlocksUniform(cf: CaseForms, final: seq<Entry>, digitCombs: seq<string>, charCombs: seq<string>)
    ensures Uniform(NameBlocks(cf, final, digitCombs, charCombs), 3 * (|digitCombs| * |charCombs|))
  {
    forall n | 0 <= n < |final|
      ensures |NameBlocks(cf, final, digitCombs, charCombs)[n]| == 3 * (|digitCombs| * |charCombs|)
    {
      FormBlocksUniform(cf, final[n].firstname, digitCombs, charCombs);
      FlattenLength(FormBlocks(cf, final[n].firstname, digitCombs, charCombs), |digitCombs| * |charCombs|);
    }
  }

  /**
    The whole output for the kept names, name after name (main.go:234-258).
    Each name contributes 3 * |digitCombs| * |charCombs| lines: nothing is
    merged or dropped.
  */
  function Expand(cf: CaseForms, final: seq<Entry>, digitCombs: seq<string>, charCombs: seq<string>): (lines: seq<string>)
    ensures |lines| == |final| * (3 * (|digitCombs| * |charCombs|))
  {
    NameBlocksUniform(cf, final, digitCombs, charCombs);
    FlattenLength(NameBlocks(cf, final, digitCombs, charCombs), 3 * (|digitCombs| * |charCombs|));
    Flatten(NameBlocks(cf, final, digitCombs, charCombs))
  }

  /** Where the line for name n, form k, digit suffix i and special suffix j is printed. */
  function Position(n: nat, k: nat, i: nat, j: nat, d: nat, m: nat): nat {
    ((n * 3 + k) * d + i) * m + j
  }

  /**
    Order of the output: the line for name n, form k, digit suffix i and
    special suffix j is at ((n * 3 + k) * |digitCombs| + i) * |charCombs| + j.
  */
  lemma ExpandAt(cf: CaseForms, final: seq<Entry>, digitCombs: seq<string>, charCombs: seq<string>,
                 n: nat, k: nat, i: nat, j: nat)
    requires n < |final| && k < 3 && i < |digitCombs| && j < |charCombs|
    ensures Position(n, k, i, j, |digitCombs|, |charCombs|) < |Expand(cf, final, digitCombs, charCombs)|
    ensures Expand(cf, final, digitCombs, charCombs)[Position(n, k, i, j, |digitCombs|, |charCombs|)]
            == Form(cf, k, final[n].firstname) + digitCombs[i] + charCombs[j]
  {
    var d, m := |digitCombs|, |charCombs|;
    var r := k * (d * m) + (i * m + j);
    Reindex(n, k, i, j, d, m);
    NameLinesAt(cf, final[n].firstname, digitCombs, charCombs, k, i, j);
    ExpandAtOffset(cf, final, digitCombs, charCombs, n, r);
  }

  /** Line r of name n's lines is line n * (3 * |digitCombs| * |charCombs|) + r of the output. */
  lemma ExpandAtOffset(cf: CaseForms, final: seq<Entry>, digitCombs: seq<string>, charCombs: seq<string>, n: nat, r: nat)
    requires n < |final| && r < 3 * (|digitCombs| * |charCombs|)
    ensures r < |NameLines(cf, final[n].firstname, digitCombs, charCombs)|
    ensures n * (3 * (|digitCombs| * |charCombs|)) + r < |Expand(cf, final, digitCombs, charCombs)|
    ensures Expand(cf, final, digitCombs, charCombs)[n * (3 * (|digitCombs| * |charCombs|)) + r]
            == NameLines(cf, final[n].firstname, digitCombs, charCombs)[r]
  {
    NameBlocksUniform(cf, final, digitCombs, charCombs);
    FlattenAt(NameBlocks(cf, final, digitCombs, charCombs), 3 * (|digitCombs| * |charCombs|), n, r);
  }

  /** Within one name's lines, form k with suffixes i and j is line k * |digitCombs| * |charCombs| + i * |charCombs| + j. */
  lemma NameLinesAt(cf: CaseForms, name: string, digitCombs: seq<string>, charCombs: seq<string>, k: nat, i: nat, j: nat)
    requires k < 3 && i < |digitCombs| && j < |charCombs|
    ensures |NameLines(cf, name, digitCombs, charCombs)| == 3 * (|digitCombs| * |charCombs|)
    ensures k * (|digitCombs| * |charCombs|) + (i * |charCombs| + j) < 3 * (|digitCombs| * |charCombs|)
    ensures NameLines(cf, name, digitCombs, charCombs)[k * (|digitCombs| * |charCombs|) + (i * |charCombs| + j)]
            == Form(cf, k, name) + digitCombs[i] + charCombs[j]
  {
    var s := |digitCombs| * |charCombs|;
    var form := Form(cf, k, name);
    var q := i * |charCombs| + j;
    assert q < s && Suffixed(form, digitCombs, charCombs)[q] == form + digitCombs[i] + charCombs[j] by {
      SuffixedAt(form, digitCombs, charCombs, i, j);
      SuffixedLength(form, digitCombs, charCombs);
    }
    FormBlocksUniform(cf, name, digitCombs, charCombs);
    FlattenAt(FormBlocks(cf, name, digitCombs, charCombs), s, k, q);
    FlattenLength(FormBlocks(cf, name, digitCombs, charCombs), s);
  }

  lemma Reindex(n: nat, k: nat, i: nat, j: nat, d: nat, m: nat)
    ensures ((n * 3 + k) * d + i) * m + j == n * (3 * (d * m)) + (k * (d * m) + (i * m + j))
  {
    calc {
      ((n * 3 + k) * d + i) * m + j;
      (n * 3 + k) * d * m + i * m + j;
      (n * 3 * d + k * d) * m + i * m + j;
      n * 3 * d * m + k * d * m + i * m + j;
      n * (3 * (d * m)) + (k * (d * m) + (i * m + j));
    }
  }

  /** Every output line is some kept name's case form followed by a digit and a special suffix. */
  lemma ExpandOnto(cf: CaseForms, final: seq<Entry>, digitCombs: seq<string>, charCombs: seq<string>, p: nat)
    requires p < |Expand(cf, final, digitCombs, charCombs)|
    ensures exists n, k, i, j :: 0 <= n < |final| && 0 <= k < 3 && 0 <= i < |digitCombs| && 0 <= j < |charCombs| &&
              Expand(cf, final, digitCombs, charCombs)[p] == Form(cf, k, final[n].firstname) + digitCombs[i] + charCombs[j]
  {
    var blocks := NameBlocks(cf, final, digitCombs, charCombs);
    FlattenOnto(blocks, p);
    var n, r :| 0 <= n < |blocks| && 0 <= r < |blocks[n]| && Flatten(blocks)[p] == blocks[n][r];
    var name := final[n].firstname;
    var forms := FormBlocks(cf, name, digitCombs, charCombs);
    FlattenOnto(forms, r);
    var k, q :| 0 <= k < 3 && 0 <= q < |forms[k]| && Flatten(forms)[r] == forms[k][q];
    SuffixedOnto(Form(cf, k, name), digitCombs, charCombs, q);
    var i, j :| 0 <= i < |digitCombs| && 0 <= j < |charCombs| &&
      forms[k][q] == Form(cf, k, name) + digitCombs[i] + charCombs[j];
  }

  /** Every combination of a kept name, a case form and two suffixes is output. */
  lemma ExpandContains(cf: CaseForms, final: seq<Entry>, digitCombs: seq<string>, charCombs: seq<string>,
                       n: nat, k: nat, i: nat, j: nat)
    requires n < |final| && k < 3 && i < |digitCombs| && j < |charCombs|
    ensures Form(cf, k, final[n].firstname) + digitCombs[i] + charCombs[j] in Expand(cf, final, digitCombs, charCombs)
  {
    ExpandAt(cf, final, digitCombs, charCombs, n, k, i, j);
  }

  /** A line is output exactly when it is some kept name's case form followed by a digit and a special suffix. */
  lemma ExpandMembership(cf: CaseForms, final: seq<Entry>, digitCombs: seq<string>, charCombs: seq<string>, line: string)
    ensures line in Expand(cf, final, digitCombs, charCombs) <==>
      exists n, k, i, j :: 0 <= n < |final| && 0 <= k < 3 && 0 <= i < |digitCombs| && 0 <= j < |charCombs| &&
        line == Form(cf, k, final[n].firstname) + digitCombs[i] + charCombs[j]
  {
    var lines := Expand(cf, final, digitCombs, charCombs);
    if line in lines {
      var p :| 0 <= p < |lines| && lines[p] == line;
      ExpandOnto(cf, final, digitCombs, charCombs, p);
    } else {
      forall n, k, i, j | 0 <= n < |final| && 0 <= k < 3 && 0 <= i < |digitCombs| && 0 <= j < |charCombs|
        ensures line != Form(cf, k, final[n].firstname) + digitCombs[i] + charCombs[j]
      {
        ExpandContains(cf, final, digitCombs, charCombs, n, k, i, j);
      }
    }
  }
}
