/**
 * Which address the pipeline matches against the directory: the extracted
 * `address` field when it is non-empty, otherwise the rest of the line after
 * the first "Versicherungsort" label in the invoice text, as the search
 * `re.search(r"Versicherungsort[:\s]+(.+)", text, re.IGNORECASE)` finds it.
 */
module Addresses {
  import opened Wrappers
  import opened PyText

  /** The label, in the lower case the case-insensitive search compares against. */
  const Label := "versicherungsort"

  /** How the case-insensitive search folds a character before comparing it with a lower-case letter. */
  function FoldForMatch(c: char): char {
    if c == 'İ' || c == 'ı' then 'i' else if c == 'ſ' then 's' else LowerChar(c)
  }

  /** The label starts at position `p` of `text`, in any letter case. */
  predicate LabelAt(text: string, p: int) {
    0 <= p && p + |Label| <= |text| && forall k :: 0 <= k < |Label| ==> FoldForMatch(text[p + k]) == Label[k]
  }

  /** The class `[:\s]`. */
  predicate Separator(c: char) {
    c == ':' || IsSpace(c)
  }

  /** The end of the longest run of separators starting at `j`. */
  function RunEnd(text: string, j: int): (e: int)
    requires 0 <= j <= |text|
    ensures j <= e <= |text| && (e == |text| || !Separator(text[e]))
    ensures forall k :: j <= k < e ==> Separator(text[k])
    decreases |text| - j
  {
    if j < |text| && Separator(text[j]) then RunEnd(text, j + 1) else j
  }

  /** The end of the line that position `m` is on: the next newline, or the end of the text. */
  function LineEnd(text: string, m: int): (e: int)
    requires 0 <= m <= |text|
    ensures m <= e <= |text| && (e == |text| || text[e] == '\n')
    ensures forall k :: m <= k < e ==> text[k] != '\n'
    decreases |text| - m
  {
    if m < |text| && text[m] != '\n' then LineEnd(text, m + 1) else m
  }

  /** The last position in `[lo, hi)` that is not a newline. */
  function LastNonNewline(text: string, lo: int, hi: int): (r: Option<int>)
    requires 0 <= lo && hi <= |text|
    ensures r.Some? ==> lo <= r.value < hi && text[r.value] != '\n'
    ensures r.Some? ==> forall k :: r.value < k < hi ==> text[k] == '\n'
    ensures r.None? ==> forall k :: lo <= k < hi ==> text[k] == '\n'
    decreases hi - lo
  {
    if hi <= lo then None
    else if text[hi - 1] != '\n' then Some(hi - 1)
    else LastNonNewline(text, lo, hi - 1)
  }

  /**
   * The group `(.+)` of a match starting at `p`, if the pattern matches
   * there. `[:\s]+` first takes the whole run of separators; only when that
   * run reaches the end of the text does it give back characters so that
   * `.+` can match.
   */
  function GroupAt(text: string, p: int): (r: Option<string>)
    ensures r.Some? ==> LabelAt(text, p)
    ensures r.Some? ==>
      exists m :: p + |Label| < m < |text| && r.value == text[m..LineEnd(text, m)]
                  && (forall k :: p + |Label| <= k < m ==> Separator(text[k]))
    ensures r.Some? ==> r.value != [] && forall k :: 0 <= k < |r.value| ==> r.value[k] != '\n'
  {
    if !LabelAt(text, p) then None
    else
      var j := p + |Label|;
      var e := RunEnd(text, j);
      if e == j then None
      else if e < |text| then
        assert text[e] != '\n' by { assert !Separator(text[e]); }
        Some(text[e..LineEnd(text, e)])
      else
        match LastNonNewline(text, j + 1, e)
        case None => None
        case Some(m) => Some(text[m..LineEnd(text, m)])
  }

  /**
   * When the label is at `p`, the match there is decided by the run of
   * separators after it: no separator, no match; a run followed by another
   * character, a group from the end of the run to the end of that line; a
   * run reaching the end of the text, a match exactly when the run holds a
   * non-newline character after its first, and then the group is the last
   * such character alone.
   */
  lemma {:induction false} GroupAtLabel(text: string, p: int)
    requires LabelAt(text, p)
    ensures var j := p + |Label|; var e := RunEnd(text, j);
      && (e == j ==> GroupAt(text, p).None?)
      && (j < e < |text| ==> GroupAt(text, p) == Some(text[e..LineEnd(text, e)]))
      && (e == |text| ==> (GroupAt(text, p).Some? <==> exists m :: j < m < |text| && text[m] != '\n'))
      && (e == |text| && GroupAt(text, p).Some? ==>
            exists m :: j < m < |text| && GroupAt(text, p) == Some([text[m]])
                        && forall k :: m < k < |text| ==> text[k] == '\n')
  {
    var j := p + |Label|;
    var e := RunEnd(text, j);
    if e == j {
      assert GroupAt(text, p).None?;
    } else if e < |text| {
      assert GroupAt(text, p) == Some(text[e..LineEnd(text, e)]);
    } else {
      var last := LastNonNewline(text, j + 1, e);
      if last.Some? {
        var m := last.value;
        assert LineEnd(text, m + 1) == m + 1;
        assert LineEnd(text, m) == m + 1;
        assert text[m..m + 1] == [text[m]];
        assert GroupAt(text, p) == Some([text[m]]);
      } else {
        assert GroupAt(text, p).None?;
        assert forall m :: j < m < |text| ==> text[m] == '\n';
      }
    }
  }

  /** `re.search`: the group of the match at the first position, from `start` on, where the pattern matches. */
  function Search(text: string, start: nat): (r: Option<string>)
    ensures r.Some? ==> r.value != [] && forall k :: 0 <= k < |r.value| ==> r.value[k] != '\n'
    decreases |text| - start
  {
    if start >= |text| then None
    else match GroupAt(text, start)
      case Some(g) => Some(g)
      case None => Search(text, start + 1)
  }

  /** The search reports the match at the leftmost position where the pattern matches, and nothing when it matches nowhere. */
  lemma {:induction false} SearchIsLeftmost(text: string, start: nat)
    ensures Search(text, start).None? <==> forall p :: start <= p ==> GroupAt(text, p).None?
    ensures Search(text, start).Some? ==>
      exists p :: start <= p < |text| && GroupAt(text, p) == Search(text, start)
                  && forall q :: start <= q < p ==> GroupAt(text, q).None?
    decreases |text| - start
  {
    if start >= |text| {
      forall p | start <= p ensures GroupAt(text, p).None? {
        assert !LabelAt(text, p);
      }
    } else if GroupAt(text, start).Some? {
      assert Search(text, start) == GroupAt(text, start);
    } else {
      SearchIsLeftmost(text, start + 1);
      assert Search(text, start) == Search(text, start + 1);
      if Search(text, start).Some? {
        var p :| start + 1 <= p < |text| && GroupAt(text, p) == Search(text, start + 1)
                 && forall q :: start + 1 <= q < p ==> GroupAt(text, q).None?;
        assert forall q :: start <= q < p ==> GroupAt(text, q).None?;
      } else {
        forall p | start <= p ensures GroupAt(text, p).None? {
          if p != start {
            assert start + 1 <= p;
          }
        }
      }
    }
  }

  /**
   * The address `process_invoices` matches: the extracted address when it
   * is non-empty; otherwise the stripped group of the leftmost position
   * where the label pattern matches, or "" when it matches nowhere.
   */
  function MatchingAddress(extracted: Option<string>, text: string): (r: string)
    ensures extracted.Some? && extracted.value != [] ==> r == extracted.value
    ensures (extracted.None? || extracted.value == []) && (forall p :: 0 <= p ==> GroupAt(text, p).None?) ==> r == ""
    ensures extracted.None? || extracted.value == [] ==>
      forall p :: 0 <= p && GroupAt(text, p).Some? && (forall q :: 0 <= q < p ==> GroupAt(text, q).None?) ==>
        r == Strip(GroupAt(text, p).value)
  {
    if extracted.Some? && extracted.value != [] then extracted.value
    else
      SearchIsLeftmost(text, 0);
      match Search(text, 0)
      case Some(group) => Strip(group)
      case None => ""
  }

  /** A spelling of the label that the case-insensitive search accepts. */
  predicate FoldsToLabel(lbl: string) {
    |lbl| == |Label| && forall k :: 0 <= k < |Label| ==> FoldForMatch(lbl[k]) == Label[k]
  }

  /** The label is written in lower-case ASCII letters. */
  lemma LabelIsLowerAscii()
    ensures forall k :: 0 <= k < |Label| ==> 'a' <= Label[k] <= 'z'
  {
  }

  /** The label in any mix of capitals and lower-case letters ("Versicherungsort", "VERSICHERUNGSORT", ...) is accepted. */
  lemma AnyCaseFoldsToLabel(lbl: string)
    requires |lbl| == |Label|
    requires forall k :: 0 <= k < |Label| ==> lbl[k] == Label[k] || lbl[k] as int + 32 == Label[k] as int
    ensures FoldsToLabel(lbl)
  {
    LabelIsLowerAscii();
    forall k | 0 <= k < |Label| ensures FoldForMatch(lbl[k]) == Label[k] {
      assert 'a' <= Label[k] <= 'z';
    }
  }

  /** A label in any accepted spelling, a run of separators and an address line: the group there is the whole line. */
  lemma GroupOfLabelledLine(pre: string, lbl: string, sep: string, line: string, rest: string)
    requires FoldsToLabel(lbl)
    requires sep != [] && forall k :: 0 <= k < |sep| ==> Separator(sep[k])
    requires line != [] && !Separator(line[0]) && forall k :: 0 <= k < |line| ==> line[k] != '\n'
    requires rest == [] || rest[0] == '\n'
    ensures GroupAt(pre + lbl + sep + line + rest, |pre|) == Some(line)
  {
    var text := pre + lbl + sep + line + rest;
    var p := |pre|;
    var j := p + |Label|;
    var e := j + |sep|;
    assert forall k :: p <= k < j ==> text[k] == lbl[k - p];
    assert LabelAt(text, p) by {
      forall k | 0 <= k < |Label| ensures FoldForMatch(text[p + k]) == Label[k] {
        assert text[p + k] == lbl[k];
      }
    }
    assert forall k :: j <= k < e ==> text[k] == sep[k - j];
    assert text[e] == line[0];
    RunEndAfter(text, j, e);
    assert forall k :: e <= k < e + |line| ==> text[k] == line[k - e];
    assert e + |line| == |text| || text[e + |line|] == rest[0];
    LineEndAt(text, e, e + |line|);
    GroupAtLabel(text, p);
    assert text[e..e + |line|] == line;
  }

  /**
   * The fallback's intended use: with no extracted address, an invoice text
   * holding the label (in any accepted spelling), a run of separators and an
   * address line, and no earlier match, resolves to that line, stripped.
   */
  lemma LabelledAddressLine(extracted: Option<string>, pre: string, lbl: string, sep: string, line: string, rest: string)
    requires extracted.None? || extracted.value == []
    requires FoldsToLabel(lbl)
    requires sep != [] && forall k :: 0 <= k < |sep| ==> Separator(sep[k])
    requires line != [] && !Separator(line[0]) && forall k :: 0 <= k < |line| ==> line[k] != '\n'
    requires rest == [] || rest[0] == '\n'
    requires forall q :: 0 <= q < |pre| ==> GroupAt(pre + lbl + sep + line + rest, q).None?
    ensures MatchingAddress(extracted, pre + lbl + sep + line + rest) == Strip(line)
  {
    GroupOfLabelledLine(pre, lbl, sep, line, rest);
  }

  lemma RunEndAfter(text: string, j: int, e: int)
    requires 0 <= j <= e <= |text| && (e == |text| || !Separator(text[e]))
    requires forall k :: j <= k < e ==> Separator(text[k])
    ensures RunEnd(text, j) == e
    decreases e - j
  {
    if j < e {
      RunEndAfter(text, j + 1, e);
    }
  }

  lemma LineEndAt(text: string, m: int, e: int)
    requires 0 <= m <= e <= |text| && (e == |text| || text[e] == '\n')
    requires forall k :: m <= k < e ==> text[k] != '\n'
    ensures LineEnd(text, m) == e
    decreases e - m
  {
    if m < e {
      LineEndAt(text, m + 1, e);
    }
  }
}
