/** `main`: resolve the identifier, fetch the metadata, download the file under
    its original name, hash it, and keep it only when the digest matches.
    The network and the hash function are parameters: `getMetadata` answers a
    metadata URL, `stream` answers a download URL with the chunks of its body,
    and `sha256` gives the hex digest `sha256sum` computes over a file. */
module Orchestrator {
  import opened Bytes
  import opened FileId
  import opened Urls
  import opened Checksum
  import opened Ascii

  /** The fields of the metadata response that `main` uses: `path`, `digest`,
      `size` and `_links["stash:download"]["href"]`. */
  datatype Metadata = Metadata(path: string, digest: string, size: int, href: string)

  /** An HTTP exchange: the body of a successful response, or the status that
      `raise_for_status` turns into an exception. */
  datatype Response<T> = Ok(body: T) | HttpError(status: int)

  /** Why a run stops early. */
  datatype Failure =
    | MetadataFailed(status: int)
    | DownloadFailed(status: int)
    | DigestMismatch(expected: string, actual: string)

  /** How the process ends: normally, or through an uncaught exception or
      `sys.exit(message)`, both of which give a non-zero status. */
  datatype Exit = Success | Abort(failure: Failure)

  function ExitStatus(e: Exit): (code: int)
    ensures code == 0 <==> e.Success?
  {
    if e.Success? then 0 else 1
  }

  /** The files on disk, by path within the output directory. */
  type Files = map<string, seq<byte>>

  /** Lines 74-78: compare the digests; on a mismatch remove the target
      (absent or not) and exit non-zero, otherwise leave everything as it is. */
  function VerifyChecksum(files: Files, target: string, expected: string, actual: string): (r: (Files, Exit))
    ensures ExitStatus(r.1) == 0 <==> Accepts(actual, expected)
    ensures r.1.Abort? ==> r.1.failure == DigestMismatch(expected, actual)
    ensures target in r.0 <==> target in files && Accepts(actual, expected)
    ensures target in r.0 ==> r.0[target] == files[target]
    ensures forall p :: p != target ==> (p in r.0 <==> p in files)
    ensures forall p :: p != target && p in r.0 ==> r.0[p] == files[p]
  {
    if !Accepts(actual, expected) then
      (files - {target}, Abort(DigestMismatch(expected, actual)))
    else
      (files, Success)
  }

  /** The whole run of `main` after argument parsing. A run that stops on a
      failed request leaves every file in the output directory as it was, and
      a run that succeeds removes no file. */
  function Run(arg: string, files: Files,
               getMetadata: string -> Response<Metadata>,
               stream: string -> Response<seq<seq<byte>>>,
               sha256: seq<byte> -> string): (r: (Files, Exit))
    ensures r.1.Abort? && !r.1.failure.DigestMismatch? ==> r.0 == files
    ensures r.1.Success? ==> forall p :: p in files ==> p in r.0
  {
    var fid := ExtractFileId(arg);
    match getMetadata(MetadataUrl(fid))
    case HttpError(status) => (files, Abort(MetadataFailed(status)))
    case Ok(meta) =>
      match stream(DownloadUrl(meta.href))
      case HttpError(status) => (files, Abort(DownloadFailed(status)))
      case Ok(chunks) =>
        var written := files[meta.path := Concat(chunks)];
        VerifyChecksum(written, meta.path, meta.digest, sha256(written[meta.path]))
  }

  /** A failed metadata request ends the run with a non-zero status before any
      download: no file in the output directory changes and the download
      stream is never consulted. */
  lemma RunMetadataError(arg: string, files: Files,
                         getMetadata: string -> Response<Metadata>,
                         stream: string -> Response<seq<seq<byte>>>, stream': string -> Response<seq<seq<byte>>>,
                         sha256: seq<byte> -> string, sha256': seq<byte> -> string)
    requires getMetadata(MetadataUrl(ExtractFileId(arg))).HttpError?
    ensures Run(arg, files, getMetadata, stream, sha256).0 == files
    ensures ExitStatus(Run(arg, files, getMetadata, stream, sha256).1) != 0
    ensures Run(arg, files, getMetadata, stream, sha256) == Run(arg, files, getMetadata, stream', sha256')
  {
  }

  /** The run succeeds exactly when both requests succeed and the digest of
      the downloaded bytes matches the metadata's digest up to letter case.
      On success the file holds the whole body under its original name and
      every other file is as before; after a mismatch the file is gone and
      every other file is as before; a failed download request ends the run
      with the files as they were. */
  lemma RunOutcome(arg: string, files: Files,
                   getMetadata: string -> Response<Metadata>,
                   stream: string -> Response<seq<seq<byte>>>,
                   sha256: seq<byte> -> string)
    requires getMetadata(MetadataUrl(ExtractFileId(arg))).Ok?
    ensures var meta := getMetadata(MetadataUrl(ExtractFileId(arg))).body;
      var body := stream(DownloadUrl(meta.href));
      var r := Run(arg, files, getMetadata, stream, sha256);
      && (ExitStatus(r.1) == 0 <==> body.Ok? && Accepts(sha256(Concat(body.body)), meta.digest))
      && (body.Ok? && ExitStatus(r.1) == 0 ==> meta.path in r.0 && r.0[meta.path] == Concat(body.body))
      && (body.Ok? && ExitStatus(r.1) != 0 ==> meta.path !in r.0)
      && (body.HttpError? ==> r.0 == files && r.1 == Abort(DownloadFailed(body.status)))
      && (forall p :: p != meta.path ==> (p in r.0 <==> p in files))
      && (forall p :: p != meta.path && p in r.0 ==> r.0[p] == files[p])
  {
  }

  /** A download link that names a file by `/files/<digits>` makes `main`
      query the metadata of exactly those digits, with the double slash after
      the host. */
  lemma ResolveLink(p: string, d: string, q: string)
    requires NoMatch(p)
    requires 0 < |d| && AllDigits(d)
    requires q == [] || !IsDigit(q[0])
    ensures MetadataUrl(ExtractFileId(p + MARKER + d + q)) == "https://datadryad.org//api/v2/files/" + d
  {
    ExtractAfterPrefix(p, d, q);
  }
}
