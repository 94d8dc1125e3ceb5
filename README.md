# Dryad single-file downloader, modelled in Dafny

`download_dryad_dataset.py` downloads one file from the Dryad data repository.
It takes a file identifier or a full download link. It fetches the file's
metadata from Dryad's REST API, streams the file to disk under its original
name, and checks the file against the digest in the metadata. This project
models the parts of that script that can be stated precisely, and proves
what they promise:

- **Identifier extraction** (`extract_file_id`, module `FileId`). The
  regular-expression search `re.search(r'/files/(\d+)', arg)` is modelled as
  an explicit left-to-right scan over the string. The greedy `\d+` becomes a
  scan to the end of the digit run. The fallback is `str.strip()`. The model
  works on ASCII characters. Whitespace is the set of ASCII code points
  Python's `str.isspace()` accepts: 9–13, 28–31 and 32.
- **URL construction** (module `Urls`). `str.format` is modelled as "replace
  the leftmost `{}` with the argument, verbatim". `API_FILE` is derived by
  that function from `DATADRYAD_URL`, exactly as line 13 derives it. The
  metadata URL's double slash (`https://datadryad.org//api/v2/files/<id>`)
  is therefore proved, not assumed.
- **Download loop** (module `Download`). The open file and the progress bar
  are classes whose methods update their fields. The loop of `download`
  writes every non-empty chunk and advances the bar by its length.
- **Checksum** (module `Checksum`). The read loop of `sha256sum` is modelled
  up to the sequence of `h.update` calls it makes. The digest comparison of
  line 75 is modelled as ASCII lower-casing followed by equality.
- **`main`** (module `Orchestrator`). The run after argument parsing is a
  function of the argument, of the files on disk, and of three parameters:
  the metadata endpoint, the download endpoint and the hash function. It
  produces the new files and the exit status. It deletes the target on a
  digest mismatch.

The script labels the expected digest "MD5" (lines 50 and 77) but computes
SHA-256 (line 74). The model keeps that comparison exactly as written: the
computed SHA-256 hex digest is compared with the metadata's `digest` field.

## Model

| member | source | states |
|---|---|---|
| `FileId.ExtractFileId` | download_dryad_dataset.py:17-20 | the identifier is never longer than the argument, and is a non-empty run of digits whenever the pattern is found |
| `FileId.Search` | download_dryad_dataset.py:19 | a successful search captures a non-empty run of digits, shorter than the argument |
| `FileId.FindMatch` | download_dryad_dataset.py:19 | the search returns the leftmost position at or after its start where `/files/` is followed by a digit, or none when there is no such position |
| `FileId.DigitRunEnd` | download_dryad_dataset.py:19 | the greedy `\d+` stops at the end of the maximal digit run: everything before is a digit, the next character is not one, or the string ends |
| `FileId.Strip` | download_dryad_dataset.py:20 | `str.strip()` cuts off only whitespace on each side and leaves a string that is empty or starts and ends with a non-whitespace character |
| `FileId.StripCharacterised` | download_dryad_dataset.py:20 | every cut that removes only surrounding whitespace and leaves no whitespace at either end is the one `Strip` makes, so `Strip` is uniquely determined |
| `FileId.StripIdempotent` | download_dryad_dataset.py:20 | stripping twice is the same as stripping once |
| `FileId.ExtractMatched` | download_dryad_dataset.py:19-20 | when `/files/<digit>` occurs, the result is the maximal digit run after the leftmost such occurrence; it is non-empty, all digits, and verbatim, so leading zeros are kept and an earlier `/files/` without a digit is skipped |
| `FileId.ExtractUnmatched` | download_dryad_dataset.py:20 | when no `/files/<digit>` occurs, the result is the stripped argument and no error is raised |
| `FileId.SearchFindsIff` | download_dryad_dataset.py:19 | the search finds a match if and only if `/files/<digit>` occurs somewhere in the argument |
| `FileId.ExtractIsSubstring` | download_dryad_dataset.py:19-20 | the result is always a contiguous substring of the argument |
| `FileId.ExtractIdempotent` | download_dryad_dataset.py:17-20 | `extract_file_id` applied to its own output returns that output unchanged |
| `FileId.ExtractAfterPrefix` | download_dryad_dataset.py:19-20 | `/files/<digits>` preceded by text without a match and followed by a non-digit or the end yields exactly those digits |
| `FileId.ExtractPaddedDigits` | download_dryad_dataset.py:20 | a bare numeric identifier with whitespace around it yields the identifier |
| `FileId.DigitsHaveNoMatch` | download_dryad_dataset.py:19 | a string of digits never contains the `/files/` pattern |
| `FileId.MatchInSlice` | download_dryad_dataset.py:19 | a pattern match inside a slice of the argument is a match in the argument itself |
| `Urls.FindField` | download_dryad_dataset.py:13 | the leftmost `{}` replacement field of a template, or none |
| `Urls.Format` | download_dryad_dataset.py:13 | a template without a field is returned unchanged; otherwise the text before the leftmost field is kept, the argument follows verbatim, and the text after the field's two characters is kept, so the result is two characters shorter plus the argument |
| `Urls.FormatSplices` | download_dryad_dataset.py:13 | formatting a template with one `{}` field and no other `{` inserts the argument verbatim in place of the field |
| `Urls.ApiFileValue` | download_dryad_dataset.py:12-13 | `API_FILE` is `https://datadryad.org//api/v2/files/{}`, with a double slash after the host |
| `Urls.MetadataUrl` | download_dryad_dataset.py:23 | the metadata URL (`API_FILE.format(fid)`) is exactly `https://datadryad.org//api/v2/files/` followed by the identifier, verbatim |
| `Urls.DownloadUrl` | download_dryad_dataset.py:70 | the download URL is exactly `https://datadryad.org/` followed by the link, verbatim |
| `Urls.MetadataUrlInjective` | download_dryad_dataset.py:23 | different identifiers give different metadata URLs, so nothing of the identifier is lost |
| `Urls.DownloadUrlInjective` | download_dryad_dataset.py:70 | different links give different download URLs |
| `Download.NonEmpty` | download_dryad_dataset.py:44 | the chunks that pass `if chunk:` are all non-empty |
| `Download.ConcatNonEmpty` | download_dryad_dataset.py:43-45 | skipping empty chunks changes no byte of the concatenated body |
| `Bytes.ConcatAppend` | download_dryad_dataset.py:43-45 | concatenating the chunks of two consecutive stretches of a stream gives the concatenation of the whole stream |
| `Bytes.ConcatLength` | download_dryad_dataset.py:46 | the concatenated body is as long as all chunks together |
| `Download.OutFile.Open` | download_dryad_dataset.py:38 | opening with mode `'wb'` starts an empty file with no writes |
| `Download.OutFile.Write` | download_dryad_dataset.py:45 | a write appends the chunk to the file and records the write |
| `Download.ProgressBar.constructor` | download_dryad_dataset.py:38-42 | the bar starts at zero with the declared total |
| `Download.ProgressBar.Update` | download_dryad_dataset.py:46 | an update advances the counter by exactly the given amount |
| `Download.Download` | download_dryad_dataset.py:35-46 | the writes are the non-empty chunks in order, the file holds the concatenation of all chunks, the bar's count equals the file's length and the total length of all chunks, and the declared total limits nothing |
| `Checksum.Read` | download_dryad_dataset.py:31 | a read comes back empty exactly at the end of the file, and a read shorter than requested reaches the end of the file, which is what the `b""` sentinel of the loop relies on |
| `Checksum.HashUpdates` | download_dryad_dataset.py:28-33 | the hash is fed the whole file, in order, in non-empty pieces of at most 1 MiB, all of them full except the last |
| `Checksum.Accepts` | download_dryad_dataset.py:75 | accepted digests have the same length, and equal digests are always accepted |
| `Checksum.AcceptsIff` | download_dryad_dataset.py:75 | the digests are accepted if and only if they have the same length and agree at every position up to letter case, so a case difference alone never rejects |
| `Checksum.AcceptsEquivalence` | download_dryad_dataset.py:75 | acceptance is reflexive, symmetric and transitive |
| `Checksum.AcceptsIgnoresCase` | download_dryad_dataset.py:75 | lower-casing either digest beforehand never changes the decision |
| `Checksum.AcceptsMixedCaseExample` | download_dryad_dataset.py:75 | `AB12` is accepted against `ab12`, and `ab12` is rejected against `ab13` |
| `Ascii.LowerCharEqual` | download_dryad_dataset.py:75 | two characters lower-case to the same character if and only if they are equal or the two cases of one letter |
| `Ascii.LowerIdempotent` | download_dryad_dataset.py:75 | lower-casing twice is the same as lower-casing once |
| `Ascii.Lower` | download_dryad_dataset.py:75 | lower-casing keeps the length, leaves no upper-case letter, and changes no other character |
| `Ascii.LowerChar` | download_dryad_dataset.py:75 | a lower-cased character is never an upper-case letter |
| `Orchestrator.VerifyChecksum` | download_dryad_dataset.py:74-78 | the exit status is zero if and only if the digests are accepted; on a mismatch the target is removed, whether or not it existed, and the failure names both digests; on acceptance the target is kept as it was; no other file changes |
| `Orchestrator.ExitStatus` | download_dryad_dataset.py:77 | only a normal end gives exit status zero |
| `Orchestrator.RunMetadataError` | download_dryad_dataset.py:24-25 | a failed metadata request ends the run with a non-zero status: no file in the output directory changes and the download is never attempted, because the result does not depend on the download endpoint or the hash |
| `Orchestrator.RunOutcome` | download_dryad_dataset.py:57-78 | the run succeeds if and only if the download succeeds and the digest of the downloaded bytes matches the metadata digest up to case; on success the file holds the whole body under its original name; after a mismatch it is gone; a failed download request ends the run with a non-zero status and the files as they were; no other file in the output directory changes |
| `Orchestrator.Run` | download_dryad_dataset.py:57-78 | a run that stops on a failed request changes no file in the output directory, and a successful run removes no file |
| `Orchestrator.ResolveLink` | download_dryad_dataset.py:57-62 | a link naming a file as `/files/<digits>` makes the run query `https://datadryad.org//api/v2/files/<digits>` |

## Left out

- HTTP (`requests.get`, `raise_for_status`, the `(5, 30)` timeouts, redirects, `r.json()`): network I/O in a foreign library. Each request is a parameter of `Orchestrator.Run` that answers a URL with a body or an error status.
- SHA-256 itself (`hashlib`): a foreign primitive. `sha256sum` is modelled up to the bytes it feeds the hash, and the digest is a parameter of `Orchestrator.Run`.
- The rendering of the `tqdm` progress bar: user interface. Only its total and its counter are kept.
- `argparse`, `Path.expanduser().resolve()`, `mkdir(parents=True, exist_ok=True)`, `print` and the text of messages: command-line and filesystem plumbing. Files are keyed by the metadata `path` within the output directory. How `outdir / filename` joins paths, including an absolute or `..` filename escaping the directory, is not modelled.
- The output directory itself: line 60 creates it before the metadata request of line 62, so even a run whose metadata request fails leaves the directory behind. The model keeps only the files within it.
- Local file-system errors: opening, writing, reading and removing the target always succeed in the model. In the script, `dest.open('wb')` at line 38 raises when the metadata `path` names a missing subdirectory or an existing directory, or when the directory is not writable. The process then ends non-zero with no file written, whereas `Orchestrator.Run` writes the body and may succeed. The same applies to `fh.write` (line 45), the read in `sha256sum` (line 30) and `unlink` (line 76). `Orchestrator.RunOutcome`'s "succeeds if and only if" holds only under this assumption.
- The JSON field lookups and their `KeyError`: dictionary access on untyped data. The metadata is a record with the four fields `main` reads.
- Errors raised in the middle of a streamed download, which leave a partial file behind: the download endpoint either fails before the file is opened or delivers the whole body.
- Unicode: `\d`, `str.strip()` and `str.lower()` are modelled on ASCII only. Python's versions also accept non-ASCII digits, whitespace and letters.
- `Urls.Format`: models only templates with at most one `{}` field. The `{{`/`}}` escapes, named or indexed fields, format specifications and the errors for missing arguments are not modelled, because neither template uses them.
- `Download.Download`: the chunk sizes `iter_content(CHUNK)` produces are not constrained. The result holds for any chunking.
