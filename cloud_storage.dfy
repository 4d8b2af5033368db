/** Cloudflare R2 object storage: the object key given to an uploaded
    document, and what each wrapper returns or throws. The S3 requests are
    not modelled; their outcome is a parameter. */
module CloudStorage {
  import opened Js

  /** `fileName.split('.').pop() || 'bin'` */
  function R2Extension(fileName: string): string {
    var parts := Split(fileName, '.');
    var last := parts[|parts| - 1];
    if last == "" then "bin" else last
  }

  /** `documents/${documentId}-${timestamp}.${ext}` */
  function R2Key(documentId: string, timestamp: nat, fileName: string): (key: string)
    ensures StartsWith(key, "documents/" + documentId + "-")
    ensures EndsWith(key, "." + R2Extension(fileName))
  {
    var ext := R2Extension(fileName);
    var prefix := "documents/" + documentId + "-";
    var key := prefix + NatToString(timestamp) + "." + ext;
    assert key[..|prefix|] == prefix;
    assert key[|key| - |"." + ext|..] == "." + ext;
    key
  }

  /** The extension never holds a '.', and is never empty. */
  lemma ExtensionHasNoDot(fileName: string)
    ensures '.' !in R2Extension(fileName) && R2Extension(fileName) != ""
  {
  }

  /** A name with a '.' not at its end: the text after the last '.'. */
  lemma ExtensionAfterLastDot(fileName: string, i: nat)
    requires i < |fileName| - 1 && fileName[i] == '.' && '.' !in fileName[i + 1..]
    ensures R2Extension(fileName) == fileName[i + 1..]
  {
    SplitLast(fileName, '.', i);
  }

  /** A non-empty name without '.' is its own extension. */
  lemma ExtensionWithoutDot(fileName: string)
    requires '.' !in fileName && fileName != ""
    ensures R2Extension(fileName) == fileName
  {
    SplitNoSeparator(fileName, '.');
  }

  /** An empty name, or one ending in '.', gets "bin". */
  lemma ExtensionDefault(fileName: string)
    requires fileName == "" || fileName[|fileName| - 1] == '.'
    ensures R2Extension(fileName) == "bin"
  {
    if fileName != "" {
      SplitLast(fileName, '.', |fileName| - 1);
    }
  }

  /** What the S3 client's `send` did: succeeded, or failed with an error
      whose name and HTTP status are given. */
  datatype SendResult = Sent | SendFailed(name: string, httpStatus: Option<int>)

  const NotConfigured := "R2 is not configured. Please set R2 environment variables."

  /** uploadToR2 */
  function UploadToR2(configured: bool, key: string, send: SendResult): (o: Outcome<string>)
    ensures !configured ==> o == Thrown(NotConfigured)
    ensures configured && send.Sent? ==> o == Returned(key)
    ensures configured && send.SendFailed? ==> o == Thrown("Failed to upload file to R2")
  {
    if !configured then Thrown(NotConfigured)
    else if send.Sent? then Returned(key)
    else Thrown("Failed to upload file to R2")
  }

  /** What GetObject returned: a body streamed as chunks, no body, or an
      error with its name. */
  datatype GetResult = Body(chunks: seq<seq<bv8>>) | NoBody | GetFailed(name: string)

  function Concat(chunks: seq<seq<bv8>>): seq<bv8> {
    if chunks == [] then [] else chunks[0] + Concat(chunks[1..])
  }

  /** downloadFromR2: the missing-body error is raised inside the try, so it
      surfaces as the generic failure. */
  function DownloadFromR2(configured: bool, get: GetResult): (o: Outcome<seq<bv8>>)
    ensures !configured ==> o == Thrown(NotConfigured)
    ensures configured && get.Body? ==> o == Returned(Concat(get.chunks))
    ensures configured && get.NoBody? ==> o == Thrown("Failed to download file from R2")
    ensures configured && get.GetFailed? ==>
      o == Thrown(if get.name == "NoSuchKey" then "File not found in R2" else "Failed to download file from R2")
  {
    if !configured then Thrown(NotConfigured)
    else match get
      case Body(chunks) => Returned(Concat(chunks))
      case NoBody => Thrown("Failed to download file from R2")
      case GetFailed(name) => Thrown(if name == "NoSuchKey" then "File not found in R2" else "Failed to download file from R2")
  }

  /** The "Empty response body from R2" error never reaches the caller: it
      is thrown inside the try and replaced there; the only errors are the
      configuration one, the missing key and the generic failure. */
  lemma DownloadErrors(configured: bool, get: GetResult)
    ensures DownloadFromR2(configured, get) != Thrown("Empty response body from R2")
    ensures DownloadFromR2(configured, get).Thrown? ==>
      DownloadFromR2(configured, get).message in {NotConfigured, "File not found in R2", "Failed to download file from R2"}
  {
  }

  /** The downloaded buffer holds every chunk's bytes, in order. */
  lemma {:induction false} ConcatLength(chunks: seq<seq<bv8>>)
    ensures |Concat(chunks)| == SumLengths(chunks)
  {
    if chunks != [] {
      ConcatLength(chunks[1..]);
    }
  }

  function SumLengths(chunks: seq<seq<bv8>>): nat {
    if chunks == [] then 0 else |chunks[0]| + SumLengths(chunks[1..])
  }

  /** deleteFromR2 */
  function DeleteFromR2(configured: bool, send: SendResult): (o: Outcome<()>)
    ensures o.Returned? <==> configured && send.Sent?
    ensures !configured ==> o == Thrown(NotConfigured)
    ensures configured && send.SendFailed? ==> o == Thrown("Failed to delete file from R2")
  {
    if !configured then Thrown(NotConfigured)
    else if send.Sent? then Returned(())
    else Thrown("Failed to delete file from R2")
  }

  /** fileExistsInR2: true only after a successful HeadObject; never throws. */
  function FileExistsInR2(configured: bool, head: SendResult): (exists_: bool)
    ensures exists_ <==> configured && head.Sent?
  {
    if !configured then false
    else match head
      case Sent => true
      case SendFailed(name, status) =>
        if name == "NotFound" || status == Some(404) then false else false
  }

  /** Without configuration the answer does not depend on storage at all. */
  lemma ExistsUnconfigured(a: SendResult, b: SendResult)
    ensures FileExistsInR2(false, a) == FileExistsInR2(false, b) == false
  {
  }

  /** What signing returned: a URL, or an error. */
  datatype SignResult = Signed(url: string) | SignFailed

  /** getR2PresignedUrl */
  function PresignedUrl(configured: bool, sign: SignResult): (o: Outcome<string>)
    ensures !configured ==> o == Thrown(NotConfigured)
    ensures configured && sign.Signed? ==> o == Returned(sign.url)
    ensures configured && sign.SignFailed? ==> o == Thrown("Failed to generate presigned URL")
  {
    if !configured then Thrown(NotConfigured)
    else match sign
      case Signed(url) => Returned(url)
      case SignFailed => Thrown("Failed to generate presigned URL")
  }
}
