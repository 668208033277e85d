/**
 * The service-category form: the slug helper, the icon preview kept in component
 * state, and the hidden field that carries the existing icon's file name.
 */
module CategoryForm {
  import opened Wrappers
  import opened Text

  /** JavaScript's `\w` (without the `u` flag): ASCII letters, digits and underscore. */
  predicate IsWordChar(c: char) {
    'a' <= c <= 'z' || 'A' <= c <= 'Z' || '0' <= c <= '9' || c == '_'
  }

  predicate IsHyphen(c: char) {
    c == '-'
  }

  /** The characters the `[^\w\s-]` class does not remove. */
  predicate KeptInSlug(c: char) {
    IsWordChar(c) || IsSpace(c) || IsHyphen(c)
  }

  /** The characters a slug may consist of. */
  predicate IsSlugChar(c: char) {
    'a' <= c <= 'z' || '0' <= c <= '9' || c == '_' || c == '-'
  }

  predicate NoUpperCase(s: string) {
    forall i :: 0 <= i < |s| ==> !('A' <= s[i] <= 'Z')
  }

  /** `s.replace(/[^\w\s-]/g, "")`: every other character is dropped, the kept ones keep their order. */
  function RemoveSpecialChars(s: string): (r: string)
    ensures |r| <= |s|
    ensures forall i :: 0 <= i < |r| ==> KeptInSlug(r[i])
    ensures NoUpperCase(s) ==> forall i :: 0 <= i < |r| ==> IsSlugChar(r[i]) || IsSpace(r[i])
    ensures |s| > 0 && KeptInSlug(s[0]) ==> |r| > 0 && r[0] == s[0]
    ensures (forall i :: 0 <= i < |s| ==> KeptInSlug(s[i])) ==> r == s
    decreases |s|
  {
    if |s| == 0 then ""
    else
      var rest := RemoveSpecialChars(s[1..]);
      assert forall i :: 1 <= i < |s| ==> s[i] == s[1..][i - 1];
      if KeptInSlug(s[0]) then [s[0]] + rest else rest
  }

  /** The filter works character by character: filtering a concatenation filters each part. */
  lemma {:induction false} RemoveSpecialCharsAppend(a: string, b: string)
    ensures RemoveSpecialChars(a + b) == RemoveSpecialChars(a) + RemoveSpecialChars(b)
    decreases |a|
  {
    if |a| > 0 {
      assert (a + b)[1..] == a[1..] + b;
      RemoveSpecialCharsAppend(a[1..], b);
    } else {
      assert a + b == b;
    }
  }

  /** One character is kept exactly when it is a word character, whitespace or a hyphen. */
  lemma RemoveSpecialCharsSingle(c: char)
    ensures RemoveSpecialChars([c]) == if KeptInSlug(c) then [c] else []
  {
    assert [c][1..] == [];
  }

  /** So the kept characters all survive, in their order: "a!b" becomes "ab". */
  lemma {:induction false} RemoveSpecialCharsKeepsOrder(a: char, dropped: char, b: char)
    requires KeptInSlug(a) && KeptInSlug(b) && !KeptInSlug(dropped)
    ensures RemoveSpecialChars([a, dropped, b]) == [a, b]
  {
    assert [a, dropped, b] == [a] + ([dropped] + [b]);
    RemoveSpecialCharsAppend([a], [dropped] + [b]);
    RemoveSpecialCharsAppend([dropped], [b]);
    RemoveSpecialCharsSingle(a);
    RemoveSpecialCharsSingle(dropped);
    RemoveSpecialCharsSingle(b);
  }

  /** The first three steps; `generateSlug` ends with a `trim` of this. */
  function SlugBeforeTrim(name: string): (s: string)
    ensures forall i :: 0 <= i < |s| ==> IsSlugChar(s[i])
    ensures NoTwoInARow(s, IsHyphen)
  {
    var kept := RemoveSpecialChars(Lower(name));
    var dashed := CollapseRuns(kept, IsSpace, '-');
    CollapseRunsPreserves(kept, IsSpace, '-', IsSlugChar);
    var single := CollapseRuns(dashed, IsHyphen, '-');
    CollapseRunsPreserves(dashed, IsHyphen, '-', IsSlugChar);
    CollapseRunsNoTwoInARow(dashed, IsHyphen, '-');
    single
  }

  /**
   * `generateSlug`: lower-case, drop special characters, turn each run of
   * whitespace into one hyphen, collapse runs of hyphens, trim. JavaScript's
   * `toLowerCase` and `\s` are modelled over ASCII.
   */
  function GenerateSlug(name: string): (slug: string)
    requires IsAscii(name)
    ensures forall i :: 0 <= i < |slug| ==> IsSlugChar(slug[i])
    ensures NoTwoInARow(slug, IsHyphen)
    ensures slug == SlugBeforeTrim(name)
  {
    var s := SlugBeforeTrim(name);
    assert |s| > 0 ==> !IsSpace(s[0]) && !IsSpace(s[|s| - 1]);
    Trim(s)
  }

  /** Every slug character is ASCII, so a slug is a valid input again. */
  lemma {:induction false} SlugIsAscii(name: string)
    requires IsAscii(name)
    ensures IsAscii(GenerateSlug(name))
  {
    SlugCharsAreAscii(GenerateSlug(name));
  }

  lemma SlugCharsAreAscii(s: string)
    requires forall i :: 0 <= i < |s| ==> IsSlugChar(s[i])
    ensures IsAscii(s)
  {
  }

  /** Each step leaves a slug as it is. */
  lemma {:induction false} SlugIsFixedPoint(s: string)
    requires forall i :: 0 <= i < |s| ==> IsSlugChar(s[i])
    requires NoTwoInARow(s, IsHyphen)
    ensures IsAscii(s)
    ensures GenerateSlug(s) == s
  {
    SlugCharsAreAscii(s);
    SlugSurvivesFiltering(s);
    SlugHasNoSpaceRun(s);
    assert NoRunToCollapse(s, IsHyphen, '-');
    CollapseRunsIdentity(s, IsHyphen, '-');
    assert GenerateSlug(s) == SlugBeforeTrim(s);
  }

  lemma SlugSurvivesFiltering(s: string)
    requires forall i :: 0 <= i < |s| ==> IsSlugChar(s[i])
    ensures RemoveSpecialChars(Lower(s)) == s
  {
    assert Lower(s) == s;
    assert forall i :: 0 <= i < |s| ==> KeptInSlug(s[i]);
  }

  lemma SlugHasNoSpaceRun(s: string)
    requires forall i :: 0 <= i < |s| ==> IsSlugChar(s[i])
    ensures CollapseRuns(s, IsSpace, '-') == s
  {
    assert forall i :: 0 <= i < |s| ==> !IsSpace(s[i]);
    assert NoRunToCollapse(s, IsSpace, '-');
    CollapseRunsIdentity(s, IsSpace, '-');
  }

  /** Applying `generateSlug` to a slug changes nothing. */
  lemma {:induction false} GenerateSlugIdempotent(name: string)
    requires IsAscii(name)
    ensures IsAscii(GenerateSlug(name))
    ensures GenerateSlug(GenerateSlug(name)) == GenerateSlug(name)
  {
    SlugIsFixedPoint(GenerateSlug(name));
  }

  /**
   * The final `trim` never removes anything, because no whitespace is left by then:
   * a name that starts with whitespace gives a slug that starts with a hyphen.
   */
  lemma {:induction false} LeadingSpaceBecomesHyphen(name: string)
    requires IsAscii(name) && |name| > 0 && IsSpace(name[0])
    ensures |GenerateSlug(name)| > 0 && GenerateSlug(name)[0] == '-'
  {
    var kept := RemoveSpecialChars(Lower(name));
    var dashed := CollapseRuns(kept, IsSpace, '-');
    assert Lower(name)[0] == name[0];
    assert kept[0] == name[0];
    assert dashed[0] == '-';
  }

  /** A whitespace run on either side of the letter becomes one hyphen. */
  lemma {:induction false} SpacesAroundLetterSteps(sp1: char, c: char, sp2: char)
    requires IsSpace(sp1) && IsSpace(sp2) && !IsSpace(c)
    ensures CollapseRuns([sp1] + ([c] + [sp2]), IsSpace, '-') == ['-'] + ([c] + ['-'])
  {
    var last := [sp2];
    var middle := [c] + last;
    assert CollapseRuns(last, IsSpace, '-') == ['-'] by {
      CollapseRunsReplaces(sp2, [], IsSpace, '-');
      assert [sp2] + [] == last;
    }
    CollapseRunsKeeps(c, last, IsSpace, '-');
    assert middle[0] == c;
    CollapseRunsReplaces(sp1, middle, IsSpace, '-');
  }

  lemma {:induction false} SpacesAroundLetter(sp1: char, c: char, sp2: char)
    requires IsSpace(sp1) && IsSpace(sp2) && !IsSpace(c)
    ensures CollapseRuns([sp1, c, sp2], IsSpace, '-') == ['-', c, '-']
  {
    SpacesAroundLetterSteps(sp1, c, sp2);
    assert [sp1, c, sp2] == [sp1] + ([c] + [sp2]);
    assert ['-', c, '-'] == ['-'] + ([c] + ['-']);
  }

  /** The first two steps leave a lower-case letter or digit between two whitespace characters as it is. */
  lemma {:induction false} SpacedLetterIsKept(sp1: char, c: char, sp2: char)
    requires IsSpace(sp1) && IsSpace(sp2) && IsSlugChar(c) && c != '-'
    ensures IsAscii([sp1, c, sp2])
    ensures RemoveSpecialChars(Lower([sp1, c, sp2])) == [sp1, c, sp2]
  {
    var s := [sp1, c, sp2];
    assert Lower(s) == s;
    assert forall i :: 0 <= i < |s| ==> KeptInSlug(s[i]);
  }

  /**
   * The final `trim` keeps the hyphens that whitespace became: a letter or digit
   * between two whitespace characters, such as " a ", gives "-a-".
   */
  lemma {:induction false} SpacedLetterKeepsHyphens(sp1: char, c: char, sp2: char)
    requires IsSpace(sp1) && IsSpace(sp2) && IsSlugChar(c) && c != '-'
    ensures IsAscii([sp1, c, sp2])
    ensures GenerateSlug([sp1, c, sp2]) == ['-', c, '-']
  {
    SpacedLetterBeforeTrim(sp1, c, sp2);
  }

  lemma {:induction false} SpacedLetterBeforeTrim(sp1: char, c: char, sp2: char)
    requires IsSpace(sp1) && IsSpace(sp2) && IsSlugChar(c) && c != '-'
    ensures IsAscii([sp1, c, sp2])
    ensures SlugBeforeTrim([sp1, c, sp2]) == ['-', c, '-']
  {
    SpacedLetterIsKept(sp1, c, sp2);
    SpacesAroundLetter(sp1, c, sp2);
    HyphenatedLetterStays(c);
  }

  lemma {:induction false} HyphenatedLetterStays(c: char)
    requires c != '-'
    ensures CollapseRuns(['-', c, '-'], IsHyphen, '-') == ['-', c, '-']
  {
    var s := ['-', c, '-'];
    assert NoTwoInARow(s, IsHyphen) by {
      forall i, j | 0 <= i < j < |s| && j == i + 1 ensures !(IsHyphen(s[i]) && IsHyphen(s[j])) {
        assert i == 0 || i == 1;
      }
    }
    CollapseRunsIdentity(s, IsHyphen, '-');
  }

  /** The preview a form starts with: the stored icon under the category bucket, or none. */
  function InitialIconPreview(bucket: string, icon: Option<string>): (preview: Option<string>)
    ensures preview.Some? <==> Truthy(icon)
    ensures preview.Some? ==> preview.value == bucket + "/" + icon.value
    ensures preview.Some? ==> EndsWith(preview.value, "/" + icon.value) && StartsWith(preview.value, bucket)
  {
    if Truthy(icon) then Some(bucket + "/" + icon.value) else None
  }

  /** The preview names the stored icon: what follows the bucket and the slash is the icon itself. */
  lemma {:induction false} IconPreviewNamesIcon(bucket: string, icon: Option<string>)
    requires Truthy(icon)
    ensures var preview := InitialIconPreview(bucket, icon).value;
      StartsWith(preview, bucket + "/") && preview[|bucket| + 1..] == icon.value
  {
    var preview := InitialIconPreview(bucket, icon).value;
    assert preview[..|bucket| + 1] == bucket + "/";
  }

  /** The `existing_icon` hidden input as a name and a value, emitted only for a stored icon. */
  function ExistingIconField(icon: Option<string>): (field: Option<(string, string)>)
    ensures field.Some? <==> Truthy(icon)
    ensures field.Some? ==> field.value == ("existing_icon", icon.value)
  {
    if Truthy(icon) then Some(("existing_icon", icon.value)) else None
  }

  /** The hidden field is present exactly when the form starts with a preview. */
  lemma HiddenFieldIffInitialPreview(bucket: string, icon: Option<string>)
    ensures ExistingIconField(icon).Some? <==> InitialIconPreview(bucket, icon).Some?
  {
  }

  /** The icon preview of one form, `iconPreview` in the component's state. */
  class IconPreview {
    const bucket: string
    const initialIcon: Option<string>
    var preview: Option<string>

    constructor(bucket: string, initialIcon: Option<string>)
      ensures this.bucket == bucket && this.initialIcon == initialIcon
      ensures preview == InitialIconPreview(bucket, initialIcon)
    {
      this.bucket := bucket;
      this.initialIcon := initialIcon;
      preview := InitialIconPreview(bucket, initialIcon);
    }

    /**
     * `handleIconChange`. `objectUrls` are the object URLs the browser would make
     * for the selected files (none when the selection is cleared): the first file
     * is shown, and a cleared selection brings back the initial preview.
     */
    method HandleIconChange(objectUrls: seq<string>)
      modifies this
      ensures |objectUrls| > 0 ==> preview == Some(objectUrls[0])
      ensures |objectUrls| == 0 ==> preview == InitialIconPreview(bucket, initialIcon)
    {
      if |objectUrls| > 0 {
        preview := Some(objectUrls[0]);
      } else {
        preview := InitialIconPreview(bucket, initialIcon);
      }
    }
  }
}
