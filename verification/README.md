# PDF writer of the UBL invoice renderer, modelled in Dafny

This project models the part of the UBL invoice renderer that turns rendered
invoice HTML into a PDF. That part has two pieces:

- `PDFParams` holds the document metadata. `FromInvoice` derives it from the
  invoice number and the supplier's name.
- `PDFWriter` does the writing:
  - it stages the original UBL XML and the detached signature as temporary
    files, each in a fresh directory under the temporary root;
  - it hands them to the Mpdf renderer as associated files, together with the
    metadata and the HTML;
  - it deletes the temporary files again;
  - it keeps the PDF in memory (`LastPDF`) and, unless the writer is
    memory-only, writes it to the resolved output path.

Staging failures are absorbed as warnings with code `INC_FAIL_<name>`.
`GetWarnings` returns them, and each `WriteContent` call resets them.

The model is functional. A PHP object becomes an immutable record, and each
operation returns the new record.

- `Paths` holds paths as a root plus components, with `Join` and PHP's
  `dirname`.
- `FileSystem` is the world: a map from file paths to contents and a set of
  directories. It also holds the PHP built-ins the writer calls: `mkdir`,
  `file_put_contents`, `@unlink` and `@rmdir`. `@rmdir` only removes an empty
  directory.
- `PdfParams` models src/PDFParams.php.
- `PdfWriter` models src/PDFWriter.php. `WriteContent` returns the writer
  afterwards, the filesystem afterwards, what the renderer was told
  (`RenderCall`) and the filesystem the renderer read.
- `PdfWriterProperties` holds the properties of whole calls.

The writer's collaborators are parameters (`Env`):

- `uniq`: the successive values `uniqid()` returns during one `WriteContent`
  call, starting afresh with each call. They are assumed never to repeat
  within the call (`UniqueIds`). Freshness is checked against the filesystem
  anyway, so nothing carries over between calls.
- `resolve`: the inherited `NormalizePath`. It is uninterpreted and is given
  the filesystem as it is before staging, so it can tell a directory path,
  which gets the default `<invoice id>.pdf` name, from a file path.
- `render`: the renderer. It is uninterpreted and reads the staged files from
  the filesystem it is given.

Whether the body of `GenerateIncludeFile`'s `try` block throws is an input
too (`StageOutcome`), because PHP's `mkdir` and `file_put_contents` report
failure by returning `false` rather than by throwing.

The freshness loop of `GenerateIncludeFile` is the recursive `FreshIndex`. It
draws ids until one names no existing entry. It terminates because an id
stream that never repeats can hit a finite set of entries only finitely often
(`TakenIdsBounded`).

Two quirks of the code are kept as written:

- every descriptor has the description `"Signature"`, the original XML's too;
- every staging warning's message says "Could not include original XML in
  PDF", the signature's too.

The code always stages the original XML when `IncludeOriginalXML` is set. The
constructor takes it as a non-null string, so there is no "not supplied" case,
and the model follows the code.

## Model

| member | source | states |
|---|---|---|
| `PdfParams.New` | src/PDFParams.php:35-47 | the constructor stores each argument in its own field, and the footer keeps the template `Pagina {PAGENO} din {nbpg}` |
| `PdfParams.Default` | src/PDFParams.php:30-46 | `new PDFParams()` has five empty strings, both include flags true and the default footer |
| `PdfParams.FromInvoice` | src/PDFParams.php:49-58 | title is `"Fact. "` + ID; author and creator are both the supplier name; subject is `"Factura electronica"`; keywords are `"Factura electronica, "` + ID; both flags true; default footer |
| `PdfParams.NewRoundTrip` | src/PDFParams.php:40-46 | every record with the default footer is exactly what the constructor builds from its own fields: nothing is dropped or invented |
| `PdfParams.FromInvoiceRecoversId` | src/PDFParams.php:52-56 | the invoice number can be read back from the title, and the keywords carry the same number |
| `PdfParams.FromInvoiceInjective` | src/PDFParams.php:49-58 | two invoices get equal metadata if and only if they agree on number and supplier name |
| `PdfParams.FromInvoiceViaConstructor` | src/PDFParams.php:49-57 | the derivation equals calling the constructor with the derived strings and default flags |
| `Paths.Dirname` | src/PDFWriter.php:135 | joining a path's `dirname` with its last component gives back the path; the root is its own parent |
| `FileSystem.RmDir` | src/PDFWriter.php:135 | `@rmdir` removes a directory only when it exists and is empty, otherwise changes nothing, and never touches files |
| `PdfWriter.TakenIdsBounded` | src/PDFWriter.php:104-110 | a never-repeating id stream names existing entries at most as many times as there are entries |
| `PdfWriter.FreshIndex` | src/PDFWriter.php:104-110 | the retry loop stops at an id whose directory does not exist, and every id drawn before it named an existing entry |
| `PdfWriter.GenerateIncludeFile` | src/PDFWriter.php:99-128 | on success: the writer is unchanged, a fresh directory is created, the file `tmp/uuid/name` holds exactly the content, and the descriptor has the given name, `text/xml`, `Signature`, `Unspecified` and that path; on an exception: no descriptor, filesystem unchanged, exactly one warning `INC_FAIL_<name>` appended |
| `PdfWriter.StagedLayout` | src/PDFWriter.php:105-113 | a staged file's directory is the fresh directory, that directory lies directly under the temporary root, and the file holds the content |
| `PdfWriter.StageExtends` | src/PDFWriter.php:99-128 | on a well-formed filesystem, one more staging, successful or not, keeps the filesystem equal to the original plus exactly the staged entries |
| `PdfWriter.CleanAttachments` | src/PDFWriter.php:130-137 | every staged file is gone, no other file is touched, and only staged directories can disappear |
| `PdfWriter.CleanRemovesStagedDirs` | src/PDFWriter.php:130-137 | if the staged directories hold nothing but staged files, all of them are removed, in any order, even when two share a directory |
| `PdfWriter.CleanUndoesStaging` | src/PDFWriter.php:111-137 | on a well-formed filesystem, cleanup after staging gives back exactly the filesystem from before the staging |
| `PdfWriter.StageAllReport` | src/PDFWriter.php:61-77 | the descriptors are the expected ones in order (original XML, then signature), and exactly the expected warnings are appended |
| `PdfWriter.StageAllFiles` | src/PDFWriter.php:61-77 | each descriptor has the fixed fields and sits in a directory directly under the temporary root; the original XML and the signature get different directories; each file holds the original XML or the signature matching its name |
| `PdfWriter.StageAllStagedOver` | src/PDFWriter.php:61-77 | on a well-formed filesystem, staging adds the staged files and their fresh directories and nothing else |
| `PdfWriter.WriteContent` | src/PDFWriter.php:54-97 | warnings are exactly this call's staging failures; the renderer gets the metadata, footer, HTML and the expected attachments; `SetAssociatedFiles` is called only for a non-empty list; the renderer reads each staged file with its content; `LastPDF` is the renderer's output; the path is resolved only in disk mode, from the filesystem before staging, and there the file at that path holds `LastPDF` |
| `PdfWriterProperties.AttachmentRules` | src/PDFWriter.php:61-77 | at most two attachments, the original XML first; the XML is attached if and only if it is enabled and staged; the signature if and only if it is enabled, non-null and staged |
| `PdfWriterProperties.StagingFailureRules` | src/PDFWriter.php:62-77 | each warning code is `INC_FAIL_original-ubl.xml` or `INC_FAIL_signature.xml`; each appears if and only if that staging was attempted and threw; each enabled staging ends either attached or warned, never both |
| `PdfWriterProperties.NullSignatureIgnored` | src/PDFWriter.php:70 | a null signature is never attached and never produces a warning |
| `PdfWriterProperties.NothingEnabled` | src/PDFWriter.php:62-89 | with both flags false, `SetAssociatedFiles` is not called and no warning is recorded |
| `PdfWriterProperties.WarningsReset` | src/PDFWriter.php:56 | the whole outcome of a call is independent of the warnings left by earlier calls |
| `PdfWriterProperties.StagingIgnoresOutput` | src/PDFWriter.php:57-77 | staging reads neither the output path nor the mode |
| `PdfWriterProperties.ModesRenderAlike` | src/PDFWriter.php:90-96 | memory-only and disk mode tell the renderer the same thing and keep the same bytes, and disk mode persists exactly those bytes |
| `PdfWriterProperties.WriteContentFilesystem` | src/PDFWriter.php:61-96 | on a well-formed filesystem: memory-only mode leaves the filesystem exactly as it was; disk mode changes only the file at the resolved path; the renderer saw the original filesystem plus the staged files |

## Left out

- The Mpdf renderer is the uninterpreted `Env.render`, called once. Its output format is not modelled.
- `NormalizePath` comes from the `InvoiceWriter` base class, which is not part of this model. It is the uninterpreted `Env.resolve` of the path, the invoice, the extension and the filesystem. Its rules, including the is-a-directory test, are not modelled.
- The path where the renderer throws is not modelled. In the source, such an exception leaves the staged files behind and writes nothing.
- `uniqid()` is a per-call input stream that is assumed never to repeat a value within the call. `sys_get_temp_dir()` is the constant `/tmp`.
- `error_log` output is not modelled.
- `PdfWriterProperties.WriteContentFilesystem`: the claim that memory-only mode leaves the filesystem as it was rests on two modelling choices. The renderer has no filesystem effect of its own, although Mpdf writes its own temporary and font-cache files. Every `@unlink` of a staged file succeeds.
- `PdfWriter.GenerateIncludeFile`: an exception is modelled as happening before any filesystem effect and before any `uniqid()` value is consumed. A `mkdir` that succeeds before a throwing write would leave a directory behind, and that case is not modelled.
- `PdfWriter.GenerateIncludeFile`: a `mkdir` or `file_put_contents` that returns `false` without throwing is not modelled. Such a call still returns a descriptor while the file is missing. A completing staging is modelled as both calls taking effect.
- `PdfWriter.WriteContent`: the final `file_put_contents` is modelled as always succeeding. A missing parent directory is not modelled: there PHP emits a warning and returns `false`, and `WriteContent` ignores that result.
- `Paths.Dirname`: paths are sequences of components. PHP's `dirname` string rules are not modelled: relative paths, trailing or doubled separators, names that contain a separator.
- PHP strings, including the PDF bytes, are Dafny strings. No encoding is modelled.
- `GetWarnings` is the plain accessor `PdfWriter.GetWarnings`. Its properties are stated through `WriteContent` and the lemmas about it.
- The `PDFWriter` constructor is the plain record builder `PdfWriter.NewWriter`.
- bin/ubl2pdf.php is not modelled: CLI arguments, file checks, zip loading, parsing and exit codes.
- UBL parsing and the HTML template are not part of this model. `GetName()` of the supplier party is modelled as a plain `supplierName` field of the invoice.
