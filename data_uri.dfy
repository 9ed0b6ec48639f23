/** `encode_image_to_base64` of embedly/utils.py: the image is re-encoded as
    JPEG and returned as a data URL (RFC 2397) whose payload is the standard
    Base64 of the JPEG bytes. The JPEG encoder is not modelled: the file is
    given as absent, or as the mode Pillow opened it in and the bytes the
    JPEG writer produces for it. */
module DataUri {
  import opened Outcomes
  import opened Base64

  /** The media type and encoding marker written before the payload. */
  const JpegPrefix: string := "data:image/jpeg;base64,"

  /** The file at the path: missing, or opened by Pillow in `mode`, with the
      bytes its JPEG writer produces for it. */
  datatype ImageFile = Missing | Opened(mode: string, jpeg: seq<byte>)

  /** The image modes Pillow's JPEG writer accepts; saving any other mode
      (RGBA, P, LA, I, I;16, F, ...) raises OSError. */
  const JpegModes: set<string> := {"1", "L", "RGB", "RGBX", "CMYK", "YCbCr"}

  datatype EncodeError =
    | ImageNotFound               // `FileNotFoundError` for a path that does not exist
    | CannotWriteMode(mode: string)  // `OSError` from `img.save(buffer, format="jpeg")`

  /** The data URL for the file, or the exception the function raises. */
  function EncodeImageToBase64(file: ImageFile): (r: Result<string, EncodeError>)
    ensures r == Err(ImageNotFound) <==> file.Missing?
    ensures file.Opened? ==> (r.Ok? <==> file.mode in JpegModes)
    ensures file.Opened? && r.Err? ==> r.error == CannotWriteMode(file.mode)
    ensures r.Ok? ==> |JpegPrefix| <= |r.value| && r.value[..|JpegPrefix|] == JpegPrefix
    ensures r.Ok? ==> file.Opened? && ParseJpegDataUri(r.value) == Some(file.jpeg)
  {
    match file
    case Missing => Err(ImageNotFound)
    case Opened(mode, bytes) =>
      if mode !in JpegModes then Err(CannotWriteMode(mode))
      else
        var uri := JpegPrefix + Encode(bytes);
        assert uri[..|JpegPrefix|] == JpegPrefix;
        assert uri[|JpegPrefix|..] == Encode(bytes);
        DecodeEncode(bytes);
        Ok(uri)
  }

  /** The bytes a JPEG data URL carries, or `None` when the text does not start
      with the prefix or its payload is not Base64. */
  function ParseJpegDataUri(uri: string): (r: Option<seq<byte>>)
  {
    if |JpegPrefix| <= |uri| && uri[..|JpegPrefix|] == JpegPrefix then Decode(uri[|JpegPrefix|..])
    else None
  }

  /** The parser reads back only what the encoder writes: every text it accepts
      is the data URL of the bytes it returns, for an image in any writable
      mode. */
  lemma ParseIsInverse(uri: string, mode: string)
    requires ParseJpegDataUri(uri).Some? && mode in JpegModes
    ensures EncodeImageToBase64(Opened(mode, ParseJpegDataUri(uri).value)) == Ok(uri)
  {
    var payload := uri[|JpegPrefix|..];
    EncodeDecode(payload);
    assert uri == JpegPrefix + payload;
  }
}
