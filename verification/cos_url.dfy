/** The URL an upload to object storage resolves to (src/utils/cos.ts, the
    completion callback of `uploadFileToCOS`): the bucket URL and object key,
    an optional CDN signature parameter, and an optional image-processing
    suffix. The SDK upload itself is an input: it failed or it succeeded. */
module CosUrl {
  import opened Wrappers
  import opened Strings

  /** The fields of the temporary credential that shape the URL. */
  datatype Credentials = Credentials(cosUrl: string, key: string, cdnSign: string, cdnSignParam: string,
                                     imageFormat: string)

  function Base(c: Credentials): string {
    c.cosUrl + "/" + c.key
  }

  predicate Signed(c: Credentials) {
    c.cdnSign != "" && c.cdnSignParam != ""
  }

  function SignPart(c: Credentials): string {
    if Signed(c) then "?" + c.cdnSignParam + "=" + c.cdnSign else ""
  }

  /** The URL built on success. */
  function FinalUrl(c: Credentials): (url: string)
    ensures StartsWith(url, Base(c))
    ensures |url| == |Base(c)| + |SignPart(c)| + (if c.imageFormat != "" then 1 + |c.imageFormat| else 0)
    ensures Signed(c) ==> url[|Base(c)|..|Base(c)| + |SignPart(c)|] == "?" + c.cdnSignParam + "=" + c.cdnSign
    ensures !Signed(c) && c.imageFormat == "" ==> url == Base(c)
    ensures c.imageFormat != "" ==>
      && url[|url| - |c.imageFormat|..] == c.imageFormat
      && url[|url| - |c.imageFormat| - 1] == (if '?' in url[..|url| - |c.imageFormat| - 1] then '&' else '?')
  {
    var signed := Base(c) + SignPart(c);
    if c.imageFormat != "" then
      var sep := if Includes(signed, "?") then '&' else '?';
      IncludesChar(signed, '?');
      var url := signed + [sep] + c.imageFormat;
      assert url[..|url| - |c.imageFormat| - 1] == signed;
      url
    else signed
  }

  /** A URL holds a query exactly when the base already had a `?`, a
      signature was added, or an image format was added; with both a
      signature and a format, the format is joined with `&`. */
  lemma QueryPresence(c: Credentials)
    ensures '?' in FinalUrl(c) <==> '?' in Base(c) || Signed(c) || c.imageFormat != ""
    ensures Signed(c) && c.imageFormat != "" ==>
            FinalUrl(c) == Base(c) + SignPart(c) + "&" + c.imageFormat
  {
    var url := FinalUrl(c);
    var signed := Base(c) + SignPart(c);
    assert url[..|signed|] == signed;
    if Signed(c) {
      assert signed[|Base(c)|] == '?';
    }
    if c.imageFormat != "" {
      assert url[|signed|] in "?&";
    }
  }

  /** The upload's outcome: the final URL on success, nothing on error. */
  function UploadResult(failed: bool, c: Credentials): (r: Option<string>)
    ensures failed <==> r.None?
    ensures r.Some? ==> StartsWith(r.value, Base(c))
    ensures !failed ==> r == Some(FinalUrl(c))
  {
    if failed then None else Some(FinalUrl(c))
  }

  /** An unsigned upload without an image format resolves to exactly the
      bucket URL and key; otherwise the resolved URL carries a query. */
  lemma UploadedUrlShape(c: Credentials)
    ensures !Signed(c) && c.imageFormat == "" ==> UploadResult(false, c) == Some(Base(c))
    ensures Signed(c) || c.imageFormat != "" ==> '?' in UploadResult(false, c).value
  {
    QueryPresence(c);
  }
}
