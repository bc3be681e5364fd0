/** The content type the media download endpoint answers with: the stored "contentType"
    metadata when there is one, else the stored media kind, else the file name's suffix, else
    the generic binary type. */
module MediaContentType {
  import opened Common

  const OctetStream: string := "application/octet-stream"

  /** Every type the resolution can produce without a stored "contentType". */
  const DerivedTypes: set<string> :=
    {"image/jpeg", "image/png", "image/gif", "image/webp", "video/mp4", "video/quicktime", OctetStream}

  /** The suffix chain over an already lower-cased file name. */
  function SuffixType(lowerName: string): (ct: Option<string>)
    ensures ct.Some? ==> ct.value in DerivedTypes && ct.value != OctetStream
    ensures EndsWith(lowerName, ".jpg") || EndsWith(lowerName, ".jpeg") ==> ct == Some("image/jpeg")
    ensures EndsWith(lowerName, ".png") ==> ct == Some("image/png")
    ensures EndsWith(lowerName, ".mp4") ==> ct == Some("video/mp4")
    ensures EndsWith(lowerName, ".mov") ==> ct == Some("video/quicktime")
    ensures EndsWith(lowerName, ".gif") ==> ct == Some("image/gif")
    ensures EndsWith(lowerName, ".webp") ==> ct == Some("image/webp")
    ensures ct.None? <==> !(EndsWith(lowerName, ".jpg") || EndsWith(lowerName, ".jpeg") ||
                            EndsWith(lowerName, ".png") || EndsWith(lowerName, ".mp4") ||
                            EndsWith(lowerName, ".mov") || EndsWith(lowerName, ".gif") ||
                            EndsWith(lowerName, ".webp"))
  {
    SuffixesExclusive(lowerName);
    if EndsWith(lowerName, ".jpg") || EndsWith(lowerName, ".jpeg") then Some("image/jpeg")
    else if EndsWith(lowerName, ".png") then Some("image/png")
    else if EndsWith(lowerName, ".mp4") then Some("video/mp4")
    else if EndsWith(lowerName, ".mov") then Some("video/quicktime")
    else if EndsWith(lowerName, ".gif") then Some("image/gif")
    else if EndsWith(lowerName, ".webp") then Some("image/webp")
    else None
  }

  /** A name ends with at most one of the recognised suffixes (".jpg" and ".jpeg" both mean
      JPEG), so the order of the checks does not matter. */
  lemma SuffixesExclusive(name: string)
    ensures EndsWith(name, ".jpg") ==> !EndsWith(name, ".jpeg") && !EndsWith(name, ".png") && !EndsWith(name, ".mp4")
                                       && !EndsWith(name, ".mov") && !EndsWith(name, ".gif") && !EndsWith(name, ".webp")
    ensures EndsWith(name, ".jpeg") ==> !EndsWith(name, ".png") && !EndsWith(name, ".mp4")
                                        && !EndsWith(name, ".mov") && !EndsWith(name, ".gif") && !EndsWith(name, ".webp")
    ensures EndsWith(name, ".png") ==> !EndsWith(name, ".mp4") && !EndsWith(name, ".mov") && !EndsWith(name, ".gif")
                                       && !EndsWith(name, ".webp")
    ensures EndsWith(name, ".mp4") ==> !EndsWith(name, ".mov") && !EndsWith(name, ".gif") && !EndsWith(name, ".webp")
    ensures EndsWith(name, ".mov") ==> !EndsWith(name, ".gif") && !EndsWith(name, ".webp")
    ensures EndsWith(name, ".gif") ==> !EndsWith(name, ".webp")
  {
    var n := |name|;
    if EndsWith(name, ".jpg") { assert name[n - 1] == 'g' && name[n - 2] == 'p'; }
    if EndsWith(name, ".jpeg") { assert name[n - 1] == 'g' && name[n - 2] == 'e'; }
    if EndsWith(name, ".png") { assert name[n - 1] == 'g' && name[n - 2] == 'n'; }
    if EndsWith(name, ".mp4") { assert name[n - 1] == '4'; }
    if EndsWith(name, ".mov") { assert name[n - 1] == 'v'; }
    if EndsWith(name, ".gif") { assert name[n - 1] == 'f'; }
    if EndsWith(name, ".webp") { assert name[n - 1] == 'p'; }
  }

  /** The metadata, if any, decides nothing: it has no "contentType" and no "type" of "image"
      or "video", so the file name is consulted. */
  predicate NoMetadataType(metadata: Option<map<string, string>>) {
    metadata.None? ||
    ("contentType" !in metadata.value &&
     !("type" in metadata.value && metadata.value["type"] in {"image", "video"}))
  }

  /** determineContentType(filename, metadata); a null file name or metadata is None. */
  function DetermineContentType(filename: Option<string>, metadata: Option<map<string, string>>): (ct: string)
    ensures metadata.Some? && "contentType" in metadata.value ==> ct == metadata.value["contentType"]
    ensures (metadata.None? || "contentType" !in metadata.value) ==> ct in DerivedTypes
    ensures metadata.Some? && "contentType" !in metadata.value && "type" in metadata.value ==>
              (metadata.value["type"] == "image" ==> ct == "image/jpeg") &&
              (metadata.value["type"] == "video" ==> ct == "video/mp4")
    ensures NoMetadataType(metadata) && filename.None? ==> ct == OctetStream
    ensures NoMetadataType(metadata) && filename.Some? ==>
              ct == (var s := SuffixType(ToLower(filename.value)); if s.Some? then s.value else OctetStream)
  {
    if metadata.Some? && "contentType" in metadata.value then metadata.value["contentType"]
    else if metadata.Some? && "type" in metadata.value && metadata.value["type"] == "image" then "image/jpeg"
    else if metadata.Some? && "type" in metadata.value && metadata.value["type"] == "video" then "video/mp4"
    else if filename.Some? then
      var s := SuffixType(ToLower(filename.value));
      if s.Some? then s.value else OctetStream
    else OctetStream
  }

  /** Suffix matching ignores ASCII case: a name and its lower-cased form resolve alike. */
  lemma ContentTypeIgnoresCase(filename: string, metadata: Option<map<string, string>>)
    ensures DetermineContentType(Some(filename), metadata) == DetermineContentType(Some(ToLower(filename)), metadata)
  {
    ToLowerIdempotent(filename);
  }

  /** Two names that differ only in letter case get the same type. */
  lemma ContentTypeSameIgnoringCase(f: string, g: string, metadata: Option<map<string, string>>)
    requires SameIgnoringCase(f, g)
    ensures DetermineContentType(Some(f), metadata) == DetermineContentType(Some(g), metadata)
  {
    ContentTypeIgnoresCase(f, metadata);
    ContentTypeIgnoresCase(g, metadata);
  }
}
