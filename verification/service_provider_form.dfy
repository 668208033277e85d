/**
 * The file inputs of the service-provider form: the preview each input starts
 * with (derived from the stored file names), the preview after a selection
 * changes, how previews render, and the hidden field that carries the stored
 * names back to the server; plus the rule for showing the status select.
 */
module ServiceProviderForm {
  import opened Wrappers
  import opened Text
  import opened Records
  import StatusDropdown

  /** The `preview` state: nothing, one URL, or a list of URLs. */
  datatype Preview = NoPreview | Single(url: string) | Multiple(urls: seq<string>)

  /** The separator between stored file names of a multi-file field. */
  const NameSeparator: string := ", "

  /** Each stored name placed under the provider bucket. */
  function UnderBucket(bucket: string, names: seq<string>): (urls: seq<string>)
    ensures |urls| == |names|
    ensures forall i :: 0 <= i < |names| ==> urls[i] == bucket + "/" + names[i]
  {
    seq(|names|, i requires 0 <= i < |names| => bucket + "/" + names[i])
  }

  /**
   * The preview an input starts with, and falls back to when its selection is
   * cleared: none without a stored name; otherwise the stored name under the
   * bucket, or for a multi-file input each name of the ", "-separated list.
   */
  function InitialPreview(bucket: string, existing: Option<string>, multiple: bool): (p: Preview)
    ensures !Truthy(existing) <==> p == NoPreview
    ensures Truthy(existing) && !multiple ==> p == Single(bucket + "/" + existing.value)
    ensures Truthy(existing) && multiple ==> p == Multiple(UnderBucket(bucket, Split(existing.value, NameSeparator)))
  {
    if !Truthy(existing) then NoPreview
    else if multiple then Multiple(UnderBucket(bucket, Split(existing.value, NameSeparator)))
    else Single(bucket + "/" + existing.value)
  }

  /** What follows `prefix` in `url`. */
  function AfterPrefix(url: string, prefix: string): (rest: string)
    requires StartsWith(url, prefix)
    ensures url == prefix + rest
  {
    url[|prefix|..]
  }

  /** The part of each URL after the bucket prefix. */
  function StripBucket(bucket: string, urls: seq<string>): (names: seq<string>)
    requires forall i :: 0 <= i < |urls| ==> StartsWith(urls[i], bucket + "/")
    ensures |names| == |urls|
    ensures forall i :: 0 <= i < |urls| ==> urls[i] == bucket + "/" + names[i]
  {
    seq(|urls|, i requires 0 <= i < |urls| => AfterPrefix(urls[i], bucket + "/"))
  }

  /**
   * A multi-file preview holds one URL per stored name, and nothing is lost:
   * taking the bucket prefix off each URL and joining with ", " gives the stored
   * value back.
   */
  lemma {:induction false} MultiplePreviewRoundTrip(bucket: string, existing: string)
    requires existing != ""
    ensures var p := InitialPreview(bucket, Some(existing), true);
      && |p.urls| == |Split(existing, NameSeparator)|
      && (forall i :: 0 <= i < |p.urls| ==> StartsWith(p.urls[i], bucket + "/"))
      && Join(StripBucket(bucket, p.urls), NameSeparator) == existing
  {
    var parts := Split(existing, NameSeparator);
    var urls := UnderBucket(bucket, parts);
    forall i | 0 <= i < |urls| ensures StartsWith(urls[i], bucket + "/") {
      assert urls[i][..|bucket + "/"|] == bucket + "/";
    }
    var names := StripBucket(bucket, urls);
    assert names == parts by {
      forall i | 0 <= i < |parts| ensures names[i] == parts[i] {
        assert urls[i] == (bucket + "/") + parts[i];
      }
    }
  }

  /** The URLs `renderPreview` lays out: none for a falsy preview, else one per entry. */
  function RenderedUrls(p: Preview): (urls: seq<string>)
    ensures p.NoPreview? ==> urls == []
    ensures p.Single? ==> urls == (if p.url == "" then [] else [p.url])
    ensures p.Multiple? ==> urls == p.urls
  {
    match p
    case NoPreview => []
    case Single(url) => if url == "" then [] else [url]
    case Multiple(urls) => urls
  }

  /** `/\.(jpeg|jpg|gif|png)$/i` */
  predicate IsImageUrl(url: string) {
    var lower := Lower(url);
    EndsWith(lower, ".jpeg") || EndsWith(lower, ".jpg") || EndsWith(lower, ".gif") || EndsWith(lower, ".png")
  }

  /** The test reads the URL through `Lower`, so the case of the extension does not matter. */
  lemma ImageTestIgnoresCase(url: string)
    ensures IsImageUrl(Lower(url)) == IsImageUrl(url)
  {
    assert Lower(Lower(url)) == Lower(url);
  }

  /** Any URL that ends in an image extension, written in any case, counts as an image. */
  lemma {:induction false} ImageExtensionInAnyCase(stem: string, ext: string)
    requires Lower(ext) == ".jpeg" || Lower(ext) == ".jpg" || Lower(ext) == ".gif" || Lower(ext) == ".png"
    ensures IsImageUrl(stem + ext)
  {
    var url := stem + ext;
    var lower := Lower(url);
    forall i | 0 <= i < |ext| ensures lower[|stem| + i] == Lower(ext)[i] {
      assert url[|stem| + i] == ext[i];
    }
    assert lower[|lower| - |ext|..] == Lower(ext);
  }

  /** Upper- or mixed-case image extensions count. */
  lemma ImageTestAcceptsAnyCase()
    ensures IsImageUrl("a/B" + ".PNG") && IsImageUrl("a/b" + ".Jpeg")
  {
    assert Lower(".PNG") == ".png";
    ImageExtensionInAnyCase("a/B", ".PNG");
    assert Lower(".Jpeg") == ".jpeg";
    ImageExtensionInAnyCase("a/b", ".Jpeg");
  }

  /** A URL ending in ".pdf", in any case, is not an image, whatever comes before. */
  lemma {:induction false} PdfIsNotImage(stem: string, ext: string)
    requires Lower(ext) == ".pdf"
    ensures !IsImageUrl(stem + ext)
  {
    var url := stem + ext;
    var lower := Lower(url);
    var n := |lower|;
    assert url[n - 1] == ext[3] && url[n - 2] == ext[2];
    assert lower[n - 1] == 'f' && lower[n - 2] == 'd';
    assert !EndsWith(lower, ".jpeg") && !EndsWith(lower, ".jpg") && !EndsWith(lower, ".png") by {
      assert ".jpeg"[4] == 'g' && ".jpg"[3] == 'g' && ".png"[3] == 'g';
    }
    assert !EndsWith(lower, ".gif") by {
      assert ".gif"[2] == 'i';
    }
  }

  /** Only the end of the URL is tested: an image extension followed by another one does not count. */
  lemma ImageTestRejectsOthers()
    ensures !IsImageUrl("a/b" + ".pdf") && !IsImageUrl("a/b.png" + ".PDF")
  {
    assert Lower(".pdf") == ".pdf";
    PdfIsNotImage("a/b", ".pdf");
    assert Lower(".PDF") == ".pdf";
    PdfIsNotImage("a/b.png", ".PDF");
  }

  /** One rendered entry: an image, or a numbered link for anything else. */
  datatype PreviewItem = ImageItem(src: string) | LinkItem(href: string, number: nat)

  function RenderPreview(p: Preview): (items: seq<PreviewItem>)
    ensures |items| == |RenderedUrls(p)|
    ensures forall i :: 0 <= i < |items| ==>
      items[i] == (if IsImageUrl(RenderedUrls(p)[i]) then ImageItem(RenderedUrls(p)[i]) else LinkItem(RenderedUrls(p)[i], i + 1))
  {
    var urls := RenderedUrls(p);
    seq(|urls|, i requires 0 <= i < |urls| => if IsImageUrl(urls[i]) then ImageItem(urls[i]) else LinkItem(urls[i], i + 1))
  }

  /** `existing_${name.replace("_file", "")}`: only the first "_file" is removed. */
  function HiddenFieldName(name: string): (field: string)
    ensures !Includes(name, "_file") ==> field == "existing_" + name
    ensures Includes(name, "_file") ==> |field| == |"existing_"| + |name| - 5
  {
    "existing_" + ReplaceFirst(name, "_file", "")
  }

  /** The hidden input as a name and a value, emitted only when a stored name exists. */
  function HiddenField(name: string, existing: Option<string>): (field: Option<(string, string)>)
    ensures field.Some? <==> Truthy(existing)
    ensures field.Some? ==> field.value == (HiddenFieldName(name), existing.value)
  {
    if Truthy(existing) then Some((HiddenFieldName(name), existing.value)) else None
  }

  /**
   * The name of an input is a stem, the "_file" marker and an optional tail.
   * When the marker after the stem is the first one, the hidden field is named
   * after the stem and the tail: the marker alone is dropped.
   */
  lemma {:induction false} HiddenFieldNameDropsMarker(stem: string, tail: string)
    requires forall j :: 0 <= j < |stem| ==> !OccursAt(stem + "_file" + tail, "_file", j)
    ensures HiddenFieldName(stem + "_file" + tail) == "existing_" + stem + tail
  {
    var name := stem + "_file" + tail;
    assert name[|stem|..|stem| + 5] == "_file";
    ReplaceFirstAt(name, "_file", "", |stem|);
    assert name[..|stem|] == stem;
    assert name[|stem| + 5..] == tail;
  }

  /** A stem missing some character of "_file" holds no occurrence of it that reaches past the stem either. */
  lemma {:induction false} MarkerAfterStemIsFirst(stem: string, tail: string, k: nat)
    requires k < 5 && "_file"[k] !in stem
    ensures forall j :: 0 <= j < |stem| ==> !OccursAt(stem + "_file" + tail, "_file", j)
  {
    var name := stem + "_file" + tail;
    forall j | 0 <= j < |stem| ensures !OccursAt(name, "_file", j) {
      if j + k < |stem| {
        assert name[j + k] == stem[j + k];
      } else {
        assert name[j + k] == "_file"[j + k - |stem|];
      }
      assert name[j + k] != "_file"[k];
    }
  }

  /**
   * The five file inputs of the form and the hidden fields they produce; only
   * the first "_file" goes, so a multi-file name keeps its trailing "s".
   */
  lemma HiddenFieldNamesOfTheForm()
    ensures HiddenFieldName("logo_image" + "_file" + "") == "existing_" + "logo_image" + ""
    ensures HiddenFieldName("id_card_front_image" + "_file" + "") == "existing_" + "id_card_front_image" + ""
    ensures HiddenFieldName("id_card_back_image" + "_file" + "") == "existing_" + "id_card_back_image" + ""
    ensures HiddenFieldName("certificates_images" + "_file" + "s") == "existing_" + "certificates_images" + "s"
    ensures HiddenFieldName("document_list" + "_file" + "s") == "existing_" + "document_list" + "s"
  {
    assert "_file"[1] !in "logo_image";
    MarkerAfterStemIsFirst("logo_image", "", 1);
    HiddenFieldNameDropsMarker("logo_image", "");
    assert "_file"[3] !in "id_card_front_image";
    MarkerAfterStemIsFirst("id_card_front_image", "", 3);
    HiddenFieldNameDropsMarker("id_card_front_image", "");
    assert "_file"[1] !in "id_card_back_image";
    MarkerAfterStemIsFirst("id_card_back_image", "", 1);
    HiddenFieldNameDropsMarker("id_card_back_image", "");
    assert "_file"[3] !in "certificates_images";
    MarkerAfterStemIsFirst("certificates_images", "s", 3);
    HiddenFieldNameDropsMarker("certificates_images", "s");
    assert "_file"[1] !in "document_list";
    MarkerAfterStemIsFirst("document_list", "s", 1);
    HiddenFieldNameDropsMarker("document_list", "s");
  }

  /** One `FileInputPreview`: its props and its `preview` state. */
  class FileInput {
    const bucket: string
    const name: string
    const multiple: bool
    const existing: Option<string>
    var preview: Preview

    constructor(bucket: string, name: string, multiple: bool, existing: Option<string>)
      ensures this.bucket == bucket && this.name == name && this.multiple == multiple && this.existing == existing
      ensures preview == InitialPreview(bucket, existing, multiple)
    {
      this.bucket := bucket;
      this.name := name;
      this.multiple := multiple;
      this.existing := existing;
      preview := InitialPreview(bucket, existing, multiple);
    }

    /**
     * `handleFileChange`. `objectUrls` are the object URLs the browser would make
     * for the selected files (none when the selection is cleared): a multi-file
     * input shows them all, a single-file input the first, and a cleared
     * selection brings back the initial preview.
     */
    method HandleFileChange(objectUrls: seq<string>)
      modifies this
      ensures |objectUrls| > 0 && multiple ==> preview == Multiple(objectUrls)
      ensures |objectUrls| > 0 && !multiple ==> preview == Single(objectUrls[0])
      ensures |objectUrls| == 0 ==> preview == InitialPreview(bucket, existing, multiple)
    {
      if |objectUrls| > 0 {
        if multiple {
          preview := Multiple(objectUrls);
        } else {
          preview := Single(objectUrls[0]);
        }
      } else {
        preview := InitialPreview(bucket, existing, multiple);
      }
    }
  }

  /**
   * The status select appears only in edit mode for a provider given as initial
   * data; its default is that provider's status, spelt as a select value.
   */
  function StatusSelect(isEditing: bool, initialData: Option<ServiceProvider>): (defaultValue: Option<string>)
    ensures defaultValue.Some? <==> isEditing && initialData.Some?
    ensures defaultValue.Some? ==>
      StatusDropdown.ParseStatus(defaultValue.value) == Some(initialData.value.status)
  {
    StatusDropdown.ParseStatusValue(if initialData.Some? then initialData.value.status else Pending);
    if isEditing && initialData.Some? then Some(StatusDropdown.StatusValue(initialData.value.status)) else None
  }
}
