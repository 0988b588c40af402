/**
 * The bookmark form of the add page: the tag field is parsed with `split(",")`
 * plus `trim` and printed back with every tag followed by ", "; typing a
 * stored URL fills the form from its record, and submitting stores the form
 * when the URL is valid.
 */
module TagField {
  import opened Wrappers
  import opened Text
  import opened Store

  /** A tag as parsing produces it: non-empty, trimmed and free of commas. */
  predicate CleanTag(t: string)
  {
    t != "" && IsTrimmed(t) && ',' !in t
  }

  /** The tags typed into the tag field: split at commas, each piece trimmed, empty pieces dropped. */
  function ParseTags(field: string): (r: seq<string>)
    ensures forall i :: 0 <= i < |r| ==> CleanTag(r[i])
  {
    TrimmedPieces(field, ',')
  }

  /** The tag field as the form prints it: each tag followed by ", ", in set order. */
  function TagsField(tags: seq<string>): string
  {
    if tags == [] then "" else tags[0] + [',', ' '] + TagsField(tags[1..])
  }

  // ---------------------------------------------------------------------------
  // Parsing

  /** A comma splits the field into the tags on either side of it. */
  lemma ParseTagsAppend(x: string, y: string)
    ensures ParseTags(x + [','] + y) == ParseTags(x) + ParseTags(y)
  {
    TrimmedPiecesAppend(x, y, ',');
  }

  /** An empty field holds no tags. */
  lemma ParseEmpty()
    ensures ParseTags("") == []
  {
    TrimmedPiecesEmpty(',');
  }

  /** A space after the comma is trimmed away with the rest of the tag's surroundings. */
  lemma ParseAfterSpace(y: string)
    ensures ParseTags([' '] + y) == ParseTags(y)
  {
    TrimmedPiecesLeadingWhitespace(' ', y, ',');
  }

  /** A clean tag on its own is one tag. */
  lemma ParseClean(x: string)
    requires CleanTag(x)
    ensures ParseTags(x) == [x]
  {
    TrimmedPiecesSingle(x, ',');
  }

  /** "," separates two tags. */
  lemma CommaSeparates(x: string, y: string)
    requires CleanTag(x) && CleanTag(y)
    ensures ParseTags(x + [','] + y) == [x, y]
  {
    calc {
      ParseTags(x + [','] + y);
      { ParseTagsAppend(x, y); }
      ParseTags(x) + ParseTags(y);
      { ParseClean(x); ParseClean(y); }
      [x] + [y];
    }
  }

  /** ", " separates two tags just as "," does. */
  lemma CommaSpaceSeparates(x: string, y: string)
    requires CleanTag(x) && CleanTag(y)
    ensures ParseTags(x + [',', ' '] + y) == [x, y]
  {
    calc {
      ParseTags(x + [',', ' '] + y);
      { CommaThenSpace(x, y); }
      ParseTags(x + [','] + ([' '] + y));
      { ParseTagsAppend(x, [' '] + y); }
      ParseTags(x) + ParseTags([' '] + y);
      { ParseAfterSpace(y); }
      ParseTags(x) + ParseTags(y);
      { ParseClean(x); ParseClean(y); }
      [x] + [y];
    }
  }

  lemma CommaThenSpace(x: string, y: string)
    ensures x + [',', ' '] + y == x + [','] + ([' '] + y)
  {
  }

  /** A trailing ", " adds no tag. */
  lemma TrailingSeparator(x: string)
    requires CleanTag(x)
    ensures ParseTags(x + [',', ' ']) == [x]
  {
    var none: string := [];
    calc {
      ParseTags(x + [',', ' ']);
      { assert x + [',', ' '] + none == x + [',', ' ']; CommaThenSpace(x, none); }
      ParseTags(x + [','] + ([' '] + none));
      { ParseTagsAppend(x, [' '] + none); }
      ParseTags(x) + ParseTags([' '] + none);
      { ParseAfterSpace(none); ParseEmpty(); }
      ParseTags(x) + [];
      { ParseClean(x); }
      [x];
    }
  }

  /** A space before a comma is trimmed away with the rest of the tag's surroundings. */
  lemma ParseBeforeSpace(y: string)
    ensures ParseTags(y + [' ']) == ParseTags(y)
  {
    TrimmedPiecesTrailingWhitespace(y, ' ', ',');
  }

  /** A comma at the end of the field adds no tag. */
  lemma ParseTrailingComma(z: string)
    ensures ParseTags(z + [',']) == ParseTags(z)
  {
    TrimmedPiecesTrailingSeparator(z, ',');
  }

  /** A trailing "," adds no tag. */
  lemma TrailingComma(x: string)
    requires CleanTag(x)
    ensures ParseTags(x + [',']) == [x]
  {
    ParseTrailingComma(x);
    ParseClean(x);
  }

  /** A clean tag followed by a space is still that one tag. */
  lemma TagThenSpace(x: string)
    requires CleanTag(x)
    ensures ParseTags(x + [' ']) == [x]
  {
    ParseBeforeSpace(x);
    ParseClean(x);
  }

  /** A clean tag with spaces around it is still that one tag. */
  lemma PaddedTag(x: string)
    requires CleanTag(x)
    ensures ParseTags([' '] + (x + [' '])) == [x]
  {
    ParseAfterSpace(x + [' ']);
    TagThenSpace(x);
  }

  /** Spaces on both sides of the commas, and a comma at the end, still give exactly the two tags. */
  lemma SpacedCommas(x: string, y: string)
    requires CleanTag(x) && CleanTag(y)
    ensures ParseTags(x + [' ', ',', ' '] + y + [' ', ',']) == [x, y]
  {
    var padded := [' '] + (y + [' ']);
    assert x + [' ', ',', ' '] + y + [' ', ','] == (x + [' ']) + [','] + (padded + [',']);
    ParseTagsAppend(x + [' '], padded + [',']);
    ParseTrailingComma(padded);
    TagThenSpace(x);
    PaddedTag(y);
  }

  /** Printing clean tags and parsing the field gives back the same tags, in order. */
  lemma {:induction false} ParsePrinted(tags: seq<string>)
    requires forall i :: 0 <= i < |tags| ==> CleanTag(tags[i])
    ensures ParseTags(TagsField(tags)) == tags
  {
    if tags == [] {
      ParseEmpty();
    } else {
      var t, rest := tags[0], tags[1..];
      calc {
        ParseTags(TagsField(tags));
        { CommaThenSpace(t, TagsField(rest)); }
        ParseTags(t + [','] + ([' '] + TagsField(rest)));
        { ParseTagsAppend(t, [' '] + TagsField(rest)); }
        ParseTags(t) + ParseTags([' '] + TagsField(rest));
        { ParseAfterSpace(TagsField(rest)); }
        ParseTags(t) + ParseTags(TagsField(rest));
        { ParseClean(t); ParsePrinted(rest); }
        [t] + rest;
      }
    }
  }

  // ---------------------------------------------------------------------------
  // The form

  /**
   * `URL_INPUT.oninput`: a stored URL fills the name field with its name and
   * the tag field with its tags; any other text clears both.
   */
  method FillFields(urls: Urls, newValue: string) returns (nameField: string, tagsField: string)
    ensures CollectionHas(urls, newValue) ==>
              nameField == urls[newValue].name && tagsField == TagsField(urls[newValue].tags)
    ensures !CollectionHas(urls, newValue) ==> nameField == "" && tagsField == ""
  {
    if CollectionHas(urls, newValue) {
      var query := GetUrl(urls, newValue).value;
      var tagString := "";
      for i := 0 to |query.tags|
        invariant tagString + TagsField(query.tags[i..]) == TagsField(query.tags)
      {
        assert query.tags[i..][1..] == query.tags[i + 1..];
        tagString := tagString + query.tags[i] + ", ";
      }
      nameField, tagsField := query.name, tagString;
    } else {
      nameField, tagsField := "", "";
    }
  }

  /**
   * `SUBMIT_BUTTON.onclick`: when the URL field holds a valid URL (decided by
   * the `URL` constructor, given here as `urlIsValid`), the record is set from
   * the three fields; otherwise the store is left alone.
   */
  method Submit(state: PBMState, urlValue: string, nameValue: string, tagsValue: string, urlIsValid: bool)
    modifies state
    ensures urlIsValid ==>
              state.urls == Upserted(old(state.urls), urlValue, Some(nameValue), Some(ParseTags(tagsValue)))
    ensures !urlIsValid ==> state.urls == old(state.urls)
  {
    if urlIsValid {
      var tags := ParseTags(tagsValue);
      state.SetUrl(urlValue, Some(nameValue), Some(tags));
    }
  }

  // ---------------------------------------------------------------------------
  // Records the form produces

  /** Every record has a name and a duplicate-free list of clean tags. */
  predicate FormRecords(urls: Urls)
  {
    forall u :: u in urls ==>
      urls[u].name != "" && Distinct(urls[u].tags)
      && forall i :: 0 <= i < |urls[u].tags| ==> CleanTag(urls[u].tags[i])
  }

  /** Submitting the form for a valid (hence non-empty) URL keeps every record in that shape. */
  lemma SubmitKeepsFormRecords(urls: Urls, urlValue: string, nameValue: string, tagsValue: string)
    requires FormRecords(urls) && urlValue != ""
    ensures FormRecords(Upserted(urls, urlValue, Some(nameValue), Some(ParseTags(tagsValue))))
  {
    UpsertCleanTags(urls, urlValue, nameValue, ParseTags(tagsValue));
  }

  lemma UpsertCleanTags(urls: Urls, urlValue: string, nameValue: string, tags: seq<string>)
    requires FormRecords(urls) && urlValue != ""
    requires forall i :: 0 <= i < |tags| ==> CleanTag(tags[i])
    ensures FormRecords(Upserted(urls, urlValue, Some(nameValue), Some(tags)))
  {
    var r := Upserted(urls, urlValue, Some(nameValue), Some(tags));
    forall i | 0 <= i < |r[urlValue].tags| ensures CleanTag(r[urlValue].tags[i]) {
      var t := r[urlValue].tags[i];
      assert t in tags;
      var k :| 0 <= k < |tags| && tags[k] == t;
    }
    forall u | u in r && u != urlValue ensures r[u] == urls[u] {
      assert GetUrl(r, u) == GetUrl(urls, u);
    }
  }

  /**
   * Typing a stored URL and submitting the form as it was filled in leaves
   * the store exactly as it was.
   */
  lemma ResubmitUnchanged(urls: Urls, url: string)
    requires FormRecords(urls) && url in urls
    ensures Upserted(urls, url, Some(urls[url].name), Some(ParseTags(TagsField(urls[url].tags)))) == urls
  {
    var e := urls[url];
    ParsePrinted(e.tags);
    DedupDistinct(e.tags);
    assert NewEntry(DefaultName(url, Some(e.name)), e.tags) == e;
  }

  /** A URL the store does not have is stored with itself as the name and no tags. */
  lemma NewBookmark(urls: Urls, url: string)
    requires url !in urls
    ensures var r := Upserted(urls, url, Some(""), Some(ParseTags("")));
            r[url] == Entry(url, [])
  {
    ParseEmpty();
  }
}
