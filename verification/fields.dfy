/**
  The handling of one `name` field of a Personendaten template
  (main.go:171-186): the value, for example `Müller, Anna Maria`, is split
  on a comma with surrounding whitespace, and the group right after the
  first comma is split again on a class of single delimiter characters;
  the first piece is the first-name key that gets counted.

  Both splits follow Go's `regexp.Split(s, -1)` for the two patterns at
  main.go:28-29. Each pattern denotes a plain character rule, so a split is
  described here by its groups and the separators between them.
*/
module NameField {
  import opened Base

  /** The characters matched by `\s` in Go's regexp syntax: tab, LF, FF, CR and space. */
  predicate IsSpace(c: char) {
    c == '\t' || c == '\n' || c == '\U{000C}' || c == '\r' || c == ' '
  }

  /** The first-name delimiter class: `\s` plus `-`, `.`, `'`, `"` and U+02BF. */
  predicate IsDelimiter(c: char) {
    IsSpace(c) || c == '-' || c == '.' || c == '\'' || c == '"' || c == '\U{02BF}'
  }

  predicate AllSpace(s: string) {
    forall i :: 0 <= i < |s| ==> IsSpace(s[i])
  }

  predicate NoDelimiter(s: string) {
    forall i :: 0 <= i < |s| ==> !IsDelimiter(s[i])
  }

  predicate StartsWithSpace(s: string) {
    |s| > 0 && IsSpace(s[0])
  }

  predicate EndsWithSpace(s: string) {
    |s| > 0 && IsSpace(s[|s| - 1])
  }

  /** One match of `\s*,\s*`: exactly one comma, everything else whitespace. */
  predicate IsCommaSeparator(sep: string) {
    && multiset(sep)[','] == 1
    && forall i :: 0 <= i < |sep| && sep[i] != ',' ==> IsSpace(sep[i])
  }

  /** One match of the delimiter class: a single delimiter character. */
  predicate IsDelimiterSeparator(sep: string) {
    |sep| == 1 && IsDelimiter(sep[0])
  }

  /** The result of a split: the groups and, between consecutive groups, the matched separator. */
  datatype Split = Split(groups: seq<string>, seps: seq<string>)

  /** Puts groups and separators back together. */
  function Interleave(groups: seq<string>, seps: seq<string>): string
    requires |groups| == |seps| + 1
    decreases |seps|
  {
    if |seps| == 0 then groups[0] else groups[0] + seps[0] + Interleave(groups[1..], seps[1..])
  }

  /** Position of the first comma, or |s| when there is none. */
  function CommaIndex(s: string): (i: nat)
    ensures i <= |s|
    ensures ',' !in s[..i]
    ensures i < |s| <==> ',' in s
    ensures i < |s| ==> s[i] == ','
  {
    if |s| == 0 then 0
    else if s[0] == ',' then 0
    else
      var j := CommaIndex(s[1..]);
      assert s[1..][..j] == s[1..j + 1];
      assert s[..j + 1] == [s[0]] + s[1..j + 1];
      1 + j
  }

  /** Position of the first delimiter character, or |s| when there is none. */
  function DelimiterIndex(s: string): (i: nat)
    ensures i <= |s|
    ensures NoDelimiter(s[..i])
    ensures i < |s| ==> IsDelimiter(s[i])
  {
    if |s| == 0 || IsDelimiter(s[0]) then 0 else 1 + DelimiterIndex(s[1..])
  }

  /** Length of the whitespace run that starts the text. */
  function LeadingSpaces(s: string): (n: nat)
    ensures n <= |s|
    ensures AllSpace(s[..n])
    ensures n < |s| ==> !IsSpace(s[n])
  {
    if |s| == 0 || !IsSpace(s[0]) then 0
    else
      var m := LeadingSpaces(s[1..]);
      assert s[..m + 1] == [s[0]] + s[1..][..m];
      1 + m
  }

  /** Length of the whitespace run that ends the text. */
  function TrailingSpaces(s: string): (n: nat)
    ensures n <= |s|
    ensures AllSpace(s[|s| - n..])
    ensures n < |s| ==> !IsSpace(s[|s| - n - 1])
  {
    if |s| == 0 || !IsSpace(s[|s| - 1]) then 0
    else
      var init := s[..|s| - 1];
      var m := TrailingSpaces(init);
      assert AllSpace(s[|s| - (m + 1)..]) by {
        assert s[|s| - (m + 1)..] == init[|init| - m..] + [s[|s| - 1]];
      }
      1 + m
  }

  lemma {:induction false} InterleaveStart(groups: seq<string>, seps: seq<string>)
    requires |groups| == |seps| + 1
    ensures Interleave(groups, seps)[..|groups[0]|] == groups[0]
  {
  }

  /**
    `r` is how Go's leftmost-first, greedy matching of `\s*,\s*` cuts `s`:
    the pieces rejoin to `s`, each separator is one comma with whitespace
    around it, no group holds a comma, and no group keeps whitespace next to
    a separator (the separator took it).
  */
  predicate IsCommaSplitOf(r: Split, s: string) {
    && |r.groups| == |r.seps| + 1
    && Interleave(r.groups, r.seps) == s
    && (forall i :: 0 <= i < |r.seps| ==> IsCommaSeparator(r.seps[i]))
    && (forall i :: 0 <= i < |r.groups| ==> ',' !in r.groups[i])
    && (forall i :: 0 < i < |r.groups| ==> !StartsWithSpace(r.groups[i]))
    && (forall i :: 0 <= i < |r.groups| - 1 ==> !EndsWithSpace(r.groups[i]))
  }

  /**
    Go's `regexp.MustCompile(`\s*,\s*`).Split(s, -1)` (main.go:28, 174).
    The leftmost match starts at the whitespace run before the first comma
    and, being greedy, takes all whitespace after it; the search then
    resumes behind the match.
  */
  function CommaSplit(s: string): (r: Split)
    ensures IsCommaSplitOf(r, s)
    ensures |r.seps| == multiset(s)[',']
    decreases |s|
  {
    var c := CommaIndex(s);
    if c == |s| then
      assert s[..c] == s;
      Split([s], [])
    else
      var t := TrailingSpaces(s[..c]);
      var l := LeadingSpaces(s[c + 1..]);
      FirstSeparator(s, c, t, l);
      var rest := CommaSplit(s[c + 1 + l..]);
      RestStartsWithoutSpace(s[c + 1 + l..], rest);
      ConsCommaSplit(s[..c - t], s[c - t..c + 1 + l], s[c + 1 + l..], rest);
      Split([s[..c - t]] + rest.groups, [s[c - t..c + 1 + l]] + rest.seps)
  }

  lemma ConsCommaSplit(group: string, sep: string, restText: string, rest: Split)
    requires IsCommaSplitOf(rest, restText)
    requires IsCommaSeparator(sep) && ',' !in group && !EndsWithSpace(group)
    requires !StartsWithSpace(rest.groups[0])
    ensures IsCommaSplitOf(Split([group] + rest.groups, [sep] + rest.seps), group + sep + restText)
  {
    var r := Split([group] + rest.groups, [sep] + rest.seps);
    assert r.groups[1..] == rest.groups && r.seps[1..] == rest.seps;
    forall i | 0 <= i < |r.groups|
      ensures ',' !in r.groups[i]
    {
      if i > 0 { assert r.groups[i] == rest.groups[i - 1]; }
    }
    forall i | 0 < i < |r.groups|
      ensures !StartsWithSpace(r.groups[i])
    {
      assert r.groups[i] == rest.groups[i - 1];
    }
    forall i | 0 <= i < |r.groups| - 1
      ensures !EndsWithSpace(r.groups[i])
    {
      if i > 0 { assert r.groups[i] == rest.groups[i - 1]; }
    }
    forall i | 0 <= i < |r.seps|
      ensures IsCommaSeparator(r.seps[i])
    {
      if i > 0 { assert r.seps[i] == rest.seps[i - 1]; }
    }
  }

  lemma SliceThree(s: string, a: nat, b: nat)
    requires a <= b <= |s|
    ensures s == s[..a] + s[a..b] + s[b..]
  {
  }

  lemma NoCommaCount(x: string)
    requires ',' !in x
    ensures multiset(x)[','] == 0
  {
  }

  /** The first match of `\s*,\s*` around the comma at `c`, and the group before it. */
  lemma FirstSeparator(s: string, c: nat, t: nat, l: nat)
    requires c < |s| && s[c] == ',' && ',' !in s[..c]
    requires t == TrailingSpaces(s[..c]) && l == LeadingSpaces(s[c + 1..])
    ensures c + 1 + l <= |s|
    ensures s == s[..c - t] + s[c - t..c + 1 + l] + s[c + 1 + l..]
    ensures IsCommaSeparator(s[c - t..c + 1 + l])
    ensures ',' !in s[..c - t] && !EndsWithSpace(s[..c - t])
    ensures multiset(s)[','] == 1 + multiset(s[c + 1 + l..])[',']
    ensures |s[c + 1 + l..]| > 0 ==> !IsSpace(s[c + 1 + l])
  {
    assert s == s[..c - t] + s[c - t..c + 1 + l] + s[c + 1 + l..] by {
      CommaCountAfter(s, c, l);
      SliceThree(s, c - t, c + 1 + l);
    }
    assert IsCommaSeparator(s[c - t..c + 1 + l]) by {
      SpacesBefore(s, c, t);
      SpacesAfter(s, c, l);
      SeparatorShape(s, c, t, l);
    }
    GroupBeforeComma(s, c, t);
    CommaCountAfter(s, c, l);
  }

  /** A comma with only whitespace around it, cut out of `s`, is one separator match. */
  lemma SeparatorShape(s: string, c: nat, t: nat, l: nat)
    requires t <= c < |s| && s[c] == ',' && c + 1 + l <= |s|
    requires AllSpace(s[c - t..c]) && AllSpace(s[c + 1..c + 1 + l])
    ensures IsCommaSeparator(s[c - t..c + 1 + l])
  {
    SliceAround(s, c - t, c, c + 1 + l);
    SpacesAroundComma(s[c - t..c], s[c + 1..c + 1 + l]);
  }

  lemma SpacesBefore(s: string, c: nat, t: nat)
    requires c <= |s| && t == TrailingSpaces(s[..c])
    ensures t <= c && AllSpace(s[c - t..c])
  {
    assert s[c - t..c] == s[..c][c - t..];
  }

  lemma SpacesAfter(s: string, c: nat, l: nat)
    requires c < |s| && l == LeadingSpaces(s[c + 1..])
    ensures c + 1 + l <= |s| && AllSpace(s[c + 1..c + 1 + l])
  {
    assert s[c + 1..c + 1 + l] == s[c + 1..][..l];
  }

  lemma SliceAround(s: string, a: nat, c: nat, b: nat)
    requires a <= c < b <= |s|
    ensures s[a..b] == s[a..c] + [s[c]] + s[c + 1..b]
  {
  }

  lemma SpacesAroundComma(before: string, after: string)
    requires AllSpace(before) && AllSpace(after)
    ensures IsCommaSeparator(before + [','] + after)
  {
    var sep := before + [','] + after;
    assert ',' !in before && ',' !in after;
    NoCommaCount(before);
    NoCommaCount(after);
    forall i | 0 <= i < |sep| && sep[i] != ','
      ensures IsSpace(sep[i])
    {
      if i < |before| {
        assert sep[i] == before[i];
      } else {
        assert sep[i] == after[i - |before| - 1];
      }
    }
  }

  lemma GroupBeforeComma(s: string, c: nat, t: nat)
    requires c < |s| && ',' !in s[..c]
    requires t == TrailingSpaces(s[..c])
    ensures ',' !in s[..c - t] && !EndsWithSpace(s[..c - t])
  {
    assert s[..c - t] == s[..c][..c - t];
  }

  lemma CommaCountAfter(s: string, c: nat, l: nat)
    requires c < |s| && s[c] == ',' && ',' !in s[..c]
    requires l == LeadingSpaces(s[c + 1..])
    ensures c + 1 + l <= |s|
    ensures multiset(s)[','] == 1 + multiset(s[c + 1 + l..])[',']
    ensures |s[c + 1 + l..]| > 0 ==> !IsSpace(s[c + 1 + l])
  {
    var after := s[c + 1..][..l];
    assert s == s[..c] + [','] + after + s[c + 1 + l..];
    assert ',' !in after by {
      assert AllSpace(after);
    }
    NoCommaCount(after);
    NoCommaCount(s[..c]);
  }

  lemma RestStartsWithoutSpace(text: string, rest: Split)
    requires |rest.groups| == |rest.seps| + 1
    requires Interleave(rest.groups, rest.seps) == text
    requires |text| > 0 ==> !IsSpace(text[0])
    ensures !StartsWithSpace(rest.groups[0])
  {
    InterleaveStart(rest.groups, rest.seps);
    if |rest.groups[0]| > 0 {
      assert rest.groups[0][0] == text[0];
    }
  }

  /**
    Go's `regexp.MustCompile(`[\t\n\f\r \-\.'"ʿ]`).Split(s, -1)` (main.go:29, 180):
    every single delimiter character is a separator of its own.
  */
  function DelimiterSplit(s: string): (r: Split)
    ensures |r.groups| == |r.seps| + 1
    ensures Interleave(r.groups, r.seps) == s
    ensures forall i :: 0 <= i < |r.seps| ==> IsDelimiterSeparator(r.seps[i])
    ensures forall i :: 0 <= i < |r.groups| ==> NoDelimiter(r.groups[i])
    decreases |s|
  {
    var d := DelimiterIndex(s);
    if d == |s| then
      assert s[..d] == s;
      Split([s], [])
    else
      var rest := DelimiterSplit(s[d + 1..]);
      assert s == s[..d] + [s[d]] + s[d + 1..];
      var r := Split([s[..d]] + rest.groups, [[s[d]]] + rest.seps);
      assert r.groups[1..] == rest.groups && r.seps[1..] == rest.seps;
      r
  }

  lemma CommaIndexAt(s: string, c: nat)
    requires c < |s| && s[c] == ',' && ',' !in s[..c]
    ensures CommaIndex(s) == c
  {
  }

  /**
    With a single comma the value has two groups, and the first-name group
    is everything after the comma and the whitespace that follows it.
  */
  lemma SingleCommaGroups(v: string, c: nat)
    requires c < |v| && v[c] == ',' && ',' !in v[..c] && ',' !in v[c + 1..]
    ensures |CommaSplit(v).groups| == 2
    ensures CommaSplit(v).groups[1] == v[c + 1 + LeadingSpaces(v[c + 1..])..]
  {
    CommaIndexAt(v, c);
    var l := LeadingSpaces(v[c + 1..]);
    var rest := v[c + 1 + l..];
    assert rest == v[c + 1..][l..];
    assert ',' !in rest;
    assert CommaIndex(rest) == |rest|;
  }

  /** `s` is the longest prefix of `g` that contains no delimiter character. */
  predicate IsLongestDelimiterFreePrefix(s: string, g: string) {
    && |s| <= |g|
    && g[..|s|] == s
    && NoDelimiter(s)
    && (|s| == |g| || IsDelimiter(g[|s|]))
  }

  /**
    The first-name key of one `name` value (main.go:174-186): None when the
    value has no comma (fewer than two groups, line 175); otherwise piece 0
    of the second group. The check at line 181 never fires, since a split
    always yields at least one piece.
  */
  function Firstname(value: string): (r: Option<string>)
    ensures r.None? <==> ',' !in value
    ensures r.Some? ==> IsLongestDelimiterFreePrefix(r.value, CommaSplit(value).groups[1])
  {
    var name := CommaSplit(value).groups;
    if |name| < 2 then None
    else
      var pieces := DelimiterSplit(name[1]);
      InterleaveStart(pieces.groups, pieces.seps);
      Some(pieces.groups[0])
  }

  /** The longest delimiter-free prefix is unique, so it pins the first-name key down. */
  lemma LongestPrefixUnique(s: string, t: string, g: string)
    requires IsLongestDelimiterFreePrefix(s, g) && IsLongestDelimiterFreePrefix(t, g)
    ensures s == t
  {
  }

  /**
    The usual shape `Surname, Given rest`: with one comma followed by a
    single space, the key is the given name up to the first delimiter.
  */
  lemma SurnameGiven(surname: string, given: string, tail: string)
    requires ',' !in surname && ',' !in given && ',' !in tail
    requires NoDelimiter(given) && (tail == [] || IsDelimiter(tail[0]))
    requires !StartsWithSpace(given + tail)
    ensures Firstname(surname + ", " + given + tail) == Some(given)
  {
    var g := given + tail;
    assert surname + ", " + given + tail == surname + ", " + g;
    AfterSingleComma(surname, g);
    assert IsLongestDelimiterFreePrefix(g[..|given|], g) by {
      assert g[..|given|] == given;
      assert |given| < |g| ==> g[|given|] == tail[0];
    }
    GivenPrefix(surname + ", " + g, g, |given|);
  }

  /** Once the first-name group is known, the key is its longest delimiter-free prefix. */
  lemma GivenPrefix(v: string, g: string, k: nat)
    requires ',' in v && CommaSplit(v).groups[1] == g
    requires k <= |g| && IsLongestDelimiterFreePrefix(g[..k], g)
    ensures Firstname(v) == Some(g[..k])
  {
    LongestPrefixUnique(Firstname(v).value, g[..k], g);
  }

  /** After the only comma and one space, the rest of the value is the first-name group. */
  lemma AfterSingleComma(surname: string, rest: string)
    requires ',' !in surname && ',' !in rest && !StartsWithSpace(rest)
    ensures ',' in surname + ", " + rest
    ensures CommaSplit(surname + ", " + rest).groups[1] == rest
  {
    var v := surname + ", " + rest;
    var c := |surname|;
    var after := v[c + 1..];
    assert v[..c] == surname && v[c] == ',';
    assert after == " " + rest;
    assert ',' !in after;
    assert LeadingSpaces(after) == 1 by {
      assert IsSpace(after[0]);
      assert 1 < |after| ==> after[1] == rest[0];
    }
    SingleCommaGroups(v, c);
    assert v[c + 2..] == rest;
  }

  /** `Surname, Given` with a delimiter-free given name counts the whole given name. */
  lemma SurnameOnly(surname: string, given: string)
    requires ',' !in surname && ',' !in given
    requires NoDelimiter(given)
    ensures Firstname(surname + ", " + given) == Some(given)
  {
    assert !StartsWithSpace(given + "") by {
      assert given + "" == given;
    }
    SurnameGiven(surname, given, "");
    assert surname + ", " + given + "" == surname + ", " + given;
  }

  /** A first-name group that starts with a non-space delimiter yields the empty key, which is counted. */
  lemma EmptyKey(surname: string, tail: string)
    requires ',' !in surname && ',' !in tail
    requires |tail| > 0 && IsDelimiter(tail[0]) && !IsSpace(tail[0])
    ensures Firstname(surname + ", " + tail) == Some("")
  {
    assert NoDelimiter("") && "" + tail == tail;
    assert surname + ", " + "" + tail == surname + ", " + tail;
    SurnameGiven(surname, "", tail);
  }

  /** A parsed `key = value` field of a template (main.go:166). */
  datatype Field = Field(key: string, value: string)

  /** The candidate a field contributes: only a key that lower-cases to `name` counts (main.go:171-172). */
  function FieldCandidate(lower: string -> string, f: Field): (r: Option<string>)
    ensures r.Some? <==> lower(f.key) == "name" && ',' in f.value
    ensures r.Some? ==> r == Firstname(f.value)
  {
    if lower(f.key) == "name" then Firstname(f.value) else None
  }
}
