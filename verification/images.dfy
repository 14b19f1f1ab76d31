/** The two image fields. The profile serializer's base64 field reads a
    `data:image/<ext>;base64,<payload>` string. It splits the string at
    `;base64,` into a header and a payload and takes the extension after
    the header's last '/'. The payload becomes a file named `temp.<ext>`.
    Any other input goes unchanged to the framework's image field. The
    recipe serializer's field refuses the empty string before delegating.
    Base64 decoding and image validation are not modelled: the payload is
    kept as text. */
module Images {
  import opened Common
  import opened Text

  /** What the client sent in the image field. */
  datatype ImageData = Str(s: string) | NonStr

  /** What is handed to the framework's `ImageField.to_internal_value`. */
  datatype Handoff = File(name: string, payload: string) | PassThrough(data: ImageData)

  datatype ImageError =
    | Unpacking   // `format, imgstr = ...split(';base64,')` does not give exactly two pieces
    | NoImage     // the recipe image is the empty string

  const Marker: string := "data:image"
  const Base64Separator: string := ";base64,"

  /** `Base64ImageField.to_internal_value` up to the call of the parent field. */
  function ToInternalValue(data: ImageData): (r: Result<Handoff, ImageError>)
    ensures !(data.Str? && StartsWith(data.s, Marker)) ==> r == Ok(PassThrough(data))
    ensures r.Ok? && r.value.File? ==> data.Str? && StartsWith(data.s, Marker)
  {
    if data.Str? && StartsWith(data.s, Marker) then
      var parts := Split(data.s, Base64Separator);
      if |parts| != 2 then Err(Unpacking)
      else
        var ext := LastPiece(parts[0], "/");
        Ok(File("temp." + ext, parts[1]))
    else Ok(PassThrough(data))
  }

  /** The recipe serializer's `ImageField`: the empty string is refused, anything
      else goes to the library base64 field, which is not part of this model. */
  function RecipeImage(data: ImageData): (r: Result<ImageData, ImageError>)
    ensures r.Err? <==> data == Str("")
    ensures r.Ok? ==> r.value == data
  {
    if data == Str("") then Err(NoImage) else Ok(data)
  }

  /** A well-formed data URL: the header and payload around the only `;base64,`
      come out as the file's payload and extension, the extension being the text
      after the header's last '/'. */
  lemma DataUrlDecoded(s: string, k: nat)
    requires StartsWith(s, Marker)
    requires OccursAt(s, Base64Separator, k)
    requires forall j :: OccursAt(s, Base64Separator, j) ==> j == k
    ensures ToInternalValue(Str(s)) == Ok(File("temp." + LastPiece(s[..k], "/"), s[k + |Base64Separator|..]))
  {
    SplitOnce(s, Base64Separator, k);
  }

  /** A `data:image` string without `;base64,` fails to unpack. */
  lemma MissingSeparatorFails(s: string)
    requires StartsWith(s, Marker)
    requires !Contains(s, Base64Separator)
    ensures ToInternalValue(Str(s)) == Err(Unpacking)
  {
    SplitAbsent(s, Base64Separator);
  }

  /** A `data:image` string with `;base64,` twice fails to unpack. */
  lemma RepeatedSeparatorFails(s: string, i: nat, j: nat)
    requires StartsWith(s, Marker)
    requires OccursAt(s, Base64Separator, i) && OccursAt(s, Base64Separator, j)
    requires i + |Base64Separator| <= j
    ensures ToInternalValue(Str(s)) == Err(Unpacking)
  {
    SplitTwice(s, Base64Separator, i, j);
  }

  /** Building a data URL and reading it back recovers the extension and the payload. */
  lemma DataUrlRoundTrip(mime: string, ext: string, payload: string)
    requires !Contains(ext, "/")
    requires !Contains(Marker + mime + "/" + ext, Base64Separator)
    requires !Contains(payload, Base64Separator)
    requires forall j :: OccursAt(Marker + mime + "/" + ext + Base64Separator + payload, Base64Separator, j) ==>
      j == |Marker + mime + "/" + ext|
    ensures ToInternalValue(Str(Marker + mime + "/" + ext + Base64Separator + payload)) ==
      Ok(File("temp." + ext, payload))
  {
    var header := Marker + mime + "/" + ext;
    var s := header + Base64Separator + payload;
    var k := |header|;
    assert s[..|Marker|] == Marker;
    assert s[k..k + |Base64Separator|] == Base64Separator;
    DataUrlDecoded(s, k);
    assert s[..k] == header;
    assert s[k + |Base64Separator|..] == payload;
    LastOfSlash(Marker + mime, ext);
  }

  /** `(a + "/" + e).split('/')[-1] == e` when e has no '/'. */
  lemma LastOfSlash(a: string, e: string)
    requires !Contains(e, "/")
    ensures LastPiece(a + "/" + e, "/") == e
  {
    var h := a + "/" + e;
    LastPieceSuffix(h, "/");
    var r := LastPiece(h, "/");
    assert OccursAt(h, "/", |a|);
    LastPieceAfterSeparator(h, "/", r);
    if |r| < |e| {
      var k := |h| - |r| - 1;
      assert k > |a|;
      assert OccursAt(e, "/", k - |a| - 1) by {
        assert h[k..k + 1] == e[k - |a| - 1..k - |a|];
      }
    } else if |r| > |e| {
      assert OccursAt(r, "/", |r| - |e| - 1) by {
        assert r == h[|h| - |r|..];
        assert r[|r| - |e| - 1..|r| - |e|] == h[|a|..|a| + 1];
      }
    }
    assert r == h[|h| - |r|..];
    assert e == h[|h| - |e|..];
  }
}
