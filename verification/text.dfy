/**
 * The JavaScript string operations the admin screens use (`startsWith`, `endsWith`,
 * `includes`, `indexOf`, `replace` with a string pattern, `split`, `toLowerCase` on
 * ASCII, `Number.prototype.toString`), each stated with JavaScript's semantics, and
 * JavaScript's truthiness of nullable columns.
 */
module Text {
  import opened Wrappers

  /** A nullable string column that JavaScript treats as true: present and not empty. */
  predicate Truthy(s: Option<string>) {
    s.Some? && s.value != ""
  }

  /** A nullable boolean column that JavaScript treats as true. */
  predicate TruthyFlag(b: Option<bool>) {
    b == Some(true)
  }

  /** `s.startsWith(p)` */
  predicate StartsWith(s: string, p: string) {
    |p| <= |s| && s[..|p|] == p
  }

  /** `s.endsWith(p)` */
  predicate EndsWith(s: string, p: string) {
    |p| <= |s| && s[|s| - |p|..] == p
  }

  /** `p` occurs in `s` starting at index `i`. */
  predicate OccursAt(s: string, p: string, i: int) {
    0 <= i && i + |p| <= |s| && s[i..i + |p|] == p
  }

  /** Occurrences in `s[1..]` are the occurrences in `s` after index 0, shifted by one. */
  lemma OccursShift(s: string, p: string)
    requires |s| > 0
    ensures OccursAt(s, p, 0) <==> StartsWith(s, p)
    ensures forall j :: 1 <= j ==> (OccursAt(s, p, j) <==> OccursAt(s[1..], p, j - 1))
  {
    forall j | 1 <= j ensures OccursAt(s, p, j) <==> OccursAt(s[1..], p, j - 1) {
      if j + |p| <= |s| {
        assert s[1..][j - 1..j - 1 + |p|] == s[j..j + |p|];
      }
    }
  }

  /** `s.indexOf(p)`: the first index at which `p` occurs, None standing for -1. */
  function IndexOf(s: string, p: string): (r: Option<nat>)
    ensures r.Some? ==> OccursAt(s, p, r.value)
    ensures r.Some? ==> forall j :: 0 <= j < r.value ==> !OccursAt(s, p, j)
    ensures r.None? ==> forall j :: !OccursAt(s, p, j)
    decreases |s|
  {
    if StartsWith(s, p) then Some(0)
    else if |s| <= |p| then None
    else
      OccursShift(s, p);
      match IndexOf(s[1..], p)
      case None => None
      case Some(k) => Some(k + 1)
  }

  /** Any occurrence found by a caller that has no earlier occurrence is the one `indexOf` reports. */
  lemma IndexOfFirst(s: string, p: string, i: nat)
    requires OccursAt(s, p, i)
    requires forall j :: 0 <= j < i ==> !OccursAt(s, p, j)
    ensures IndexOf(s, p) == Some(i)
  {
  }

  /** `s.includes(p)` */
  predicate Includes(s: string, p: string) {
    IndexOf(s, p).Some?
  }

  lemma IncludesIff(s: string, p: string)
    ensures Includes(s, p) <==> exists i :: OccursAt(s, p, i)
  {
  }

  /** One occurrence is enough for `includes`. */
  lemma {:induction false} OccurrenceIncludes(s: string, p: string, i: int)
    requires OccursAt(s, p, i)
    ensures Includes(s, p)
  {
    IncludesIff(s, p);
  }

  /** A pattern whose first character never appears in `s` does not occur in it. */
  lemma {:induction false} MissingInitialExcludes(s: string, p: string)
    requires |p| > 0 && p[0] !in s
    ensures !Includes(s, p)
  {
    IncludesIff(s, p);
  }

  /** `s.replace(p, rep)` with a string pattern: only the first occurrence is replaced. */
  function ReplaceFirst(s: string, p: string, rep: string): (r: string)
    ensures !Includes(s, p) ==> r == s
    ensures Includes(s, p) ==> |r| == |s| - |p| + |rep|
  {
    match IndexOf(s, p)
    case None => s
    case Some(i) => s[..i] + rep + s[i + |p|..]
  }

  /** The occurrence that has none before it is the one replaced, and the rest of `s` is kept around it. */
  lemma {:induction false} ReplaceFirstAt(s: string, p: string, rep: string, i: nat)
    requires OccursAt(s, p, i)
    requires forall j :: 0 <= j < i ==> !OccursAt(s, p, j)
    ensures ReplaceFirst(s, p, rep) == s[..i] + rep + s[i + |p|..]
  {
    IndexOfFirst(s, p, i);
  }

  /** The inverse of `Split`: the parts glued back together with `sep` between them. */
  function Join(parts: seq<string>, sep: string): string
    decreases |parts|
  {
    if |parts| == 0 then ""
    else if |parts| == 1 then parts[0]
    else parts[0] + sep + Join(parts[1..], sep)
  }

  /**
   * `s.split(sep)` for a non-empty separator: the pieces between successive
   * occurrences of `sep`, scanning left to right. Joining them with `sep` gives `s`
   * back, and no piece contains the separator.
   */
  function Split(s: string, sep: string): (parts: seq<string>)
    requires sep != ""
    ensures |parts| >= 1
    ensures Join(parts, sep) == s
    ensures forall k :: 0 <= k < |parts| ==> !Includes(parts[k], sep)
    decreases |s|
  {
    match IndexOf(s, sep)
    case None => [s]
    case Some(i) =>
      var head := s[..i];
      var rest := Split(s[i + |sep|..], sep);
      assert s == head + sep + s[i + |sep|..];
      assert !Includes(head, sep) by {
        forall j | OccursAt(head, sep, j) ensures false {
          assert s[j..j + |sep|] == head[j..j + |sep|];
          assert OccursAt(s, sep, j);
        }
      }
      [head] + rest
  }

  /** The ASCII characters that JavaScript's `toLowerCase` maps, and how. */
  function LowerChar(c: char): (d: char)
    ensures 'A' <= c <= 'Z' ==> 'a' <= d <= 'z'
    ensures !('A' <= c <= 'Z') ==> d == c
  {
    if 'A' <= c <= 'Z' then (c as int + 32) as char else c
  }

  /** `s.toLowerCase()` restricted to ASCII. */
  function Lower(s: string): (r: string)
    ensures |r| == |s|
    ensures forall i :: 0 <= i < |s| ==> r[i] == LowerChar(s[i])
  {
    seq(|s|, i requires 0 <= i < |s| => LowerChar(s[i]))
  }

  /** JavaScript's `\s`, and the characters `trim` removes, over ASCII: space, tab, LF, VT, FF, CR. */
  predicate IsSpace(c: char) {
    c == ' ' || 9 <= c as int <= 13
  }

  /** `s` without its longest prefix of characters satisfying `p`. */
  function DropWhile(s: string, p: char -> bool): (r: string)
    ensures |r| <= |s| && r == s[|s| - |r|..]
    ensures |s| > 0 && p(s[0]) ==> |r| < |s|
    ensures forall i :: 0 <= i < |s| - |r| ==> p(s[i])
    ensures |r| > 0 ==> !p(r[0])
    decreases |s|
  {
    if |s| > 0 && p(s[0]) then
      var r := DropWhile(s[1..], p);
      assert r == s[|s| - |r|..] by {
        assert s[1..][|s| - 1 - |r|..] == s[|s| - |r|..];
      }
      assert forall i :: 0 <= i < |s| - |r| ==> p(s[i]) by {
        forall i | 1 <= i < |s| - |r| ensures p(s[i]) {
          assert s[i] == s[1..][i - 1];
        }
      }
      r
    else s
  }

  /** No two neighbouring characters of `s` both satisfy `p`. */
  ghost predicate NoTwoInARow(s: string, p: char -> bool) {
    forall i, j :: 0 <= i < j < |s| && j == i + 1 ==> !(p(s[i]) && p(s[j]))
  }

  /** A character put in front keeps the property unless it and the old first character both satisfy `p`. */
  lemma NoTwoInARowCons(c: char, t: string, p: char -> bool)
    requires NoTwoInARow(t, p)
    requires |t| == 0 || !(p(c) && p(t[0]))
    ensures NoTwoInARow([c] + t, p)
  {
    var s := [c] + t;
    forall i, j | 0 <= i < j < |s| && j == i + 1 ensures !(p(s[i]) && p(s[j])) {
      if i > 0 {
        assert s[i] == t[i - 1] && s[j] == t[j - 1];
      }
    }
  }

  /**
   * `s.replace(/x+/g, [rep])` where `x` matches exactly the characters satisfying
   * `inRun`: each maximal run of such characters becomes the one character `rep`.
   */
  function CollapseRuns(s: string, inRun: char -> bool, rep: char): (r: string)
    ensures |r| <= |s|
    ensures |r| == 0 <==> |s| == 0
    ensures |s| > 0 ==> r[0] == (if inRun(s[0]) then rep else s[0])
    decreases |s|
  {
    if |s| == 0 then ""
    else if inRun(s[0]) then [rep] + CollapseRuns(DropWhile(s, inRun), inRun, rep)
    else [s[0]] + CollapseRuns(s[1..], inRun, rep)
  }

  /** When `rep` is itself a run character, no two run characters stand side by side afterwards. */
  lemma {:induction false} CollapseRunsNoTwoInARow(s: string, inRun: char -> bool, rep: char)
    requires inRun(rep)
    ensures NoTwoInARow(CollapseRuns(s, inRun, rep), inRun)
    decreases |s|
  {
    if |s| > 0 {
      var t := if inRun(s[0]) then DropWhile(s, inRun) else s[1..];
      var c := if inRun(s[0]) then rep else s[0];
      CollapseRunsNoTwoInARow(t, inRun, rep);
      assert CollapseRuns(s, inRun, rep) == [c] + CollapseRuns(t, inRun, rep);
      NoTwoInARowCons(c, CollapseRuns(t, inRun, rep), inRun);
    }
  }

  /** A character outside the runs is copied as it is. */
  lemma CollapseRunsKeeps(c: char, t: string, inRun: char -> bool, rep: char)
    requires !inRun(c)
    ensures CollapseRuns([c] + t, inRun, rep) == [c] + CollapseRuns(t, inRun, rep)
  {
    assert ([c] + t)[1..] == t;
  }

  /** A run of one character followed by the end or by a character outside the runs stops after it. */
  lemma DropWhileSingle(c: char, t: string, p: char -> bool)
    requires p(c) && (|t| == 0 || !p(t[0]))
    ensures DropWhile([c] + t, p) == t
  {
    assert ([c] + t)[1..] == t;
  }

  /** A run of one character, followed by the end or by a character outside the runs, becomes `rep`. */
  lemma CollapseRunsReplaces(c: char, t: string, inRun: char -> bool, rep: char)
    requires inRun(c) && (|t| == 0 || !inRun(t[0]))
    ensures CollapseRuns([c] + t, inRun, rep) == [rep] + CollapseRuns(t, inRun, rep)
  {
    DropWhileSingle(c, t, inRun);
  }

  /** A character class that holds of `rep` and of every character outside the runs holds of the whole result. */
  lemma {:induction false} CollapseRunsPreserves(s: string, inRun: char -> bool, rep: char, charClass: char -> bool)
    requires charClass(rep)
    requires forall i :: 0 <= i < |s| ==> charClass(s[i]) || inRun(s[i])
    ensures forall i :: 0 <= i < |CollapseRuns(s, inRun, rep)| ==> charClass(CollapseRuns(s, inRun, rep)[i])
    decreases |s|
  {
    if |s| > 0 {
      var t := if inRun(s[0]) then DropWhile(s, inRun) else s[1..];
      var c := if inRun(s[0]) then rep else s[0];
      forall i | 0 <= i < |t| ensures charClass(t[i]) || inRun(t[i]) {
        assert t[i] == s[|s| - |t| + i];
      }
      CollapseRunsPreserves(t, inRun, rep, charClass);
      var rest := CollapseRuns(t, inRun, rep);
      var r := CollapseRuns(s, inRun, rep);
      assert r == [c] + rest;
      forall i | 0 <= i < |r| ensures charClass(r[i]) {
        if i > 0 {
          assert r[i] == rest[i - 1];
        }
      }
    }
  }

  /** A string with no run to collapse: every run character is already `rep` and stands alone. */
  ghost predicate NoRunToCollapse(s: string, inRun: char -> bool, rep: char) {
    (forall i :: 0 <= i < |s| && inRun(s[i]) ==> s[i] == rep) && NoTwoInARow(s, inRun)
  }

  lemma NoRunToCollapseTail(s: string, inRun: char -> bool, rep: char)
    requires |s| > 0 && NoRunToCollapse(s, inRun, rep)
    ensures NoRunToCollapse(s[1..], inRun, rep)
  {
    var tail := s[1..];
    forall i, j | 0 <= i < j < |tail| && j == i + 1 ensures !(inRun(tail[i]) && inRun(tail[j])) {
      assert tail[i] == s[i + 1] && tail[j] == s[j + 1];
    }
    forall i | 0 <= i < |tail| && inRun(tail[i]) ensures tail[i] == rep {
      assert tail[i] == s[i + 1];
    }
  }

  lemma {:induction false} CollapseRunsIdentity(s: string, inRun: char -> bool, rep: char)
    requires NoRunToCollapse(s, inRun, rep)
    ensures CollapseRuns(s, inRun, rep) == s
    decreases |s|
  {
    if |s| > 0 {
      var tail := s[1..];
      NoRunToCollapseTail(s, inRun, rep);
      CollapseRunsIdentity(tail, inRun, rep);
      assert s == [s[0]] + tail;
      if inRun(s[0]) {
        if |tail| > 0 {
          assert !(inRun(s[0]) && inRun(s[1]));
        }
        CollapseRunsReplaces(s[0], tail, inRun, rep);
      } else {
        CollapseRunsKeeps(s[0], tail, inRun, rep);
      }
    }
  }

  /** `s` without its longest suffix of whitespace. */
  function TrimEnd(s: string): (r: string)
    ensures |r| <= |s| && r == s[..|r|]
    ensures forall i :: |r| <= i < |s| ==> IsSpace(s[i])
    ensures |r| > 0 ==> !IsSpace(r[|r| - 1])
    decreases |s|
  {
    if |s| > 0 && IsSpace(s[|s| - 1]) then TrimEnd(s[..|s| - 1]) else s
  }

  /** `s.trim()` over ASCII: whitespace removed at both ends, the middle untouched. */
  function Trim(s: string): (r: string)
    ensures |r| > 0 ==> !IsSpace(r[0]) && !IsSpace(r[|r| - 1])
    ensures Includes(s, r)
    ensures (|s| == 0 || (!IsSpace(s[0]) && !IsSpace(s[|s| - 1]))) ==> r == s
  {
    var t := DropWhile(s, IsSpace);
    var r := TrimEnd(t);
    assert OccursAt(s, r, |s| - |t|);
    IncludesIff(s, r);
    r
  }

  predicate IsAscii(s: string) {
    forall i :: 0 <= i < |s| ==> s[i] as int < 128
  }

  /** The decimal digits of `n`, most significant first. */
  function NatToString(n: nat): (r: string)
    ensures |r| >= 1
    ensures forall i :: 0 <= i < |r| ==> '0' <= r[i] <= '9'
    decreases n
  {
    if n < 10 then ["0123456789"[n]]
    else NatToString(n / 10) + ["0123456789"[n % 10]]
  }

  /** `n.toString()` for an integral number. */
  function IntToString(n: int): string {
    if n < 0 then "-" + NatToString(-n) else NatToString(n)
  }
}
