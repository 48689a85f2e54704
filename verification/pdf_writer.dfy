/**
 The PDF writer (src/PDFWriter.php): stages the original XML and the
 signature as temporary files, hands them with the HTML and the metadata to
 the renderer, removes the temporary files again and either keeps the PDF in
 memory or writes it to the resolved output path.

 Everything the writer cannot see is a parameter: the values `uniqid()`
 returns, the inherited `NormalizePath`, the Mpdf renderer, and whether
 staging a file throws.
 */
module PdfWriter {
  import opened Options
  import opened Paths
  import opened FileSystem
  import opened PdfParams

  /** `sys_get_temp_dir()` */
  const TempRoot: Path := Join(Root, "tmp")
  const OriginalXmlName: string := "original-ubl.xml"
  const SignatureName: string := "signature.xml"
  const XmlMime: string := "text/xml"
  /** The description attached to every staged file, the original XML included. */
  const AttachmentDescription: string := "Signature"
  const Relationship: string := "Unspecified"
  const FailCodePrefix: string := "INC_FAIL_"
  /** The message prefix of every staging warning, the signature's included. */
  const FailMessagePrefix: string := "Could not include original XML in PDF: "
  const PdfExtension: string := "pdf"

  /** The associative array `GenerateIncludeFile` returns. */
  datatype Attachment = Attachment(
    name: string, mime: string, description: string, relationship: string, path: Path)

  /** `UBLRendererWarning(message, code)` */
  datatype Warning = Warning(message: string, code: string)

  /** Whether the body of `GenerateIncludeFile`'s `try` throws, and with which
      message. */
  datatype StageOutcome = Completes | Throws(message: string)

  /** The state of one `PDFWriter` object. */
  datatype Writer = Writer(
    params: Params,
    path: Option<Path>,
    originalXml: string,
    signature: Option<string>,
    memoryOnly: bool,
    warnings: seq<Warning>,
    lastPdf: Option<string>)

  /** Everything the Mpdf object is told before `Output`: the metadata setters,
      the HTML, and the associated files (None when `SetAssociatedFiles` is not
      called). */
  datatype RenderCall = RenderCall(
    title: string, author: string, creator: string, subject: string,
    keywords: string, footer: string, html: string,
    associated: Option<seq<Attachment>>)

  /** The collaborators: the successive values `uniqid()` returns during one
      call, the inherited `NormalizePath(path, invoice, extension)`, which may
      look at the filesystem (a directory path gets the default file name),
      and the renderer, which reads the staged files from the filesystem it
      is given. */
  datatype Env = Env(
    uniq: nat -> string,
    resolve: (Option<Path>, Invoice, string, Fs) -> Path,
    render: (RenderCall, Fs) -> string)

  /** `uniqid()` never repeats a value. */
  ghost predicate UniqueIds(uniq: nat -> string)
  {
    forall i: nat, j: nat :: i != j ==> uniq(i) != uniq(j)
  }

  /** The directory `GenerateIncludeFile` would create for one id. */
  function TempDir(id: string): Path
  {
    Join(TempRoot, id)
  }

  /** `new PDFWriter(params, path, originalXml, signature, memoryOnly)` */
  function NewWriter(params: Params, path: Option<Path>, originalXml: string,
                     signature: Option<string> := None, memoryOnly: bool := false): Writer
  {
    Writer(params, path, originalXml, signature, memoryOnly, [], None)
  }

  /** `GetWarnings()` */
  function GetWarnings(w: Writer): seq<Warning>
  {
    w.warnings
  }

  // ---------------------------------------------------------------------------
  // Choosing a fresh temporary directory
  // ---------------------------------------------------------------------------

  /** An injective id stream can name existing entries only as many times as
      there are entries. */
  lemma {:induction false} TakenIdsBounded(e: set<Path>, uniq: nat -> string, from: nat, n: nat)
    requires UniqueIds(uniq)
    requires forall j :: from <= j < from + n ==> TempDir(uniq(j)) in e
    ensures n <= |e|
  {
    if n > 0 {
      var last := TempDir(uniq(from + n - 1));
      var rest := e - {last};
      forall j | from <= j < from + n - 1
        ensures TempDir(uniq(j)) in rest
      {
      }
      TakenIdsBounded(rest, uniq, from, n - 1);
    }
  }

  /** The `uniqid()` retry loop: starting from the id at `k`, the index of the
      first id whose directory does not exist yet. Every id drawn before it,
      since `from`, named an existing entry. */
  function FreshIndex(fs: Fs, uniq: nat -> string, from: nat, k: nat): (r: nat)
    requires UniqueIds(uniq)
    requires from <= k
    requires forall j :: from <= j < k ==> Exists(fs, TempDir(uniq(j)))
    ensures k <= r
    ensures !Exists(fs, TempDir(uniq(r)))
    ensures forall j :: from <= j < r ==> Exists(fs, TempDir(uniq(j)))
    decreases from + |Entries(fs)| - k
  {
    if !Exists(fs, TempDir(uniq(k))) then k
    else
      TakenIdsBounded(Entries(fs), uniq, from, k - from + 1);
      FreshIndex(fs, uniq, from, k + 1)
  }

  // ---------------------------------------------------------------------------
  // Staging one attachment
  // ---------------------------------------------------------------------------

  /** The result of `GenerateIncludeFile`: the descriptor (None for `false`),
      the writer with its warnings, the filesystem, and the position of the
      next unused `uniqid()` value. */
  datatype Staged = Staged(attachment: Option<Attachment>, writer: Writer, fs: Fs, next: nat)

  /** `GenerateIncludeFile(content, name)`. When the body completes, the
      content is in a file named `name` inside a new directory under the
      temporary root; when it throws, the writer records one warning and
      nothing else changes. */
  function GenerateIncludeFile(w: Writer, fs: Fs, content: string, name: string,
                               uniq: nat -> string, from: nat, outcome: StageOutcome): (r: Staged)
    requires UniqueIds(uniq)
    ensures r.writer.(warnings := w.warnings) == w
    ensures outcome.Throws? ==>
      && r.attachment.None?
      && r.fs == fs
      && r.next == from
      && r.writer.warnings == w.warnings + [StagingWarning(name, outcome)]
    ensures outcome.Completes? ==>
      && r.writer == w
      && from < r.next
      && var dir := TempDir(uniq(r.next - 1));
      && !Exists(fs, dir)
      && (forall j :: from <= j < r.next - 1 ==> Exists(fs, TempDir(uniq(j))))
      && r.attachment == Some(Attachment(name, XmlMime, AttachmentDescription, Relationship, Join(dir, name)))
      && r.fs.files == fs.files[Join(dir, name) := content]
      && r.fs.dirs == fs.dirs + {dir}
  {
    match outcome
    case Throws(_) =>
      Staged(None, w.(warnings := w.warnings + [StagingWarning(name, outcome)]), fs, from)
    case Completes =>
      var k := FreshIndex(fs, uniq, from, from);
      var dir := TempDir(uniq(k));
      var path := Join(dir, name);
      Staged(Some(Attachment(name, XmlMime, AttachmentDescription, Relationship, path)),
             w, PutContents(Mkdir(fs, dir), path, content), k + 1)
  }

  // ---------------------------------------------------------------------------
  // Cleaning up
  // ---------------------------------------------------------------------------

  function PathSet(atts: seq<Attachment>): set<Path>
  {
    set a | a in atts :: a.path
  }

  function DirSet(atts: seq<Attachment>): set<Path>
  {
    set a | a in atts :: Dirname(a.path)
  }

  lemma SplitSets(atts: seq<Attachment>)
    requires |atts| > 0
    ensures PathSet(atts) == {atts[0].path} + PathSet(atts[1..])
    ensures DirSet(atts) == {Dirname(atts[0].path)} + DirSet(atts[1..])
  {
  }

  /** `CleanAttachments`: for each descriptor in order, `@unlink` its file and
      `@rmdir` its directory. Every staged file is gone afterwards, no other
      file is touched, and only staged directories can disappear. */
  function CleanAttachments(fs: Fs, atts: seq<Attachment>): (r: Fs)
    ensures r.files == fs.files - PathSet(atts)
    ensures r.dirs <= fs.dirs
    ensures fs.dirs - r.dirs <= DirSet(atts)
    decreases |atts|
  {
    if |atts| == 0 then fs
    else
      SplitSets(atts);
      var p := atts[0].path;
      CleanAttachments(RmDir(Unlink(fs, p), Dirname(p)), atts[1..])
  }

  /** The file of a staged attachment lies in its fresh directory, which lies
      directly under the temporary root, and holds the staged content. */
  lemma StagedLayout(w: Writer, fs: Fs, content: string, name: string,
                     uniq: nat -> string, from: nat, outcome: StageOutcome)
    requires UniqueIds(uniq)
    ensures var s := GenerateIncludeFile(w, fs, content, name, uniq, from, outcome);
            outcome.Completes? ==>
              && Dirname(s.attachment.value.path) == TempDir(uniq(s.next - 1))
              && Dirname(TempDir(uniq(s.next - 1))) == TempRoot
              && s.attachment.value.path in s.fs.files
              && s.fs.files[s.attachment.value.path] == content
  {
  }

  /** `fs` is `fs0` plus the staged attachments: their files and their fresh
      directories directly under the temporary root, and nothing else. */
  ghost predicate StagedOver(fs0: Fs, fs: Fs, atts: seq<Attachment>)
  {
    && fs.files.Keys == fs0.files.Keys + PathSet(atts)
    && (forall p :: p in fs0.files ==> fs.files[p] == fs0.files[p])
    && fs.dirs == fs0.dirs + DirSet(atts)
    && (forall a :: a in atts ==> Dirname(a.path) !in fs0.dirs && Dirname(Dirname(a.path)) == TempRoot)
    && TempRoot !in DirSet(atts)
  }

  /** Staging one more file on a well-formed filesystem extends the record of
      what was staged over it. */
  lemma StageExtends(fs0: Fs, fs: Fs, atts: seq<Attachment>, w: Writer, content: string,
                     name: string, uniq: nat -> string, from: nat, outcome: StageOutcome)
    requires WellFormed(fs0)
    requires StagedOver(fs0, fs, atts)
    requires UniqueIds(uniq)
    ensures var s := GenerateIncludeFile(w, fs, content, name, uniq, from, outcome);
            StagedOver(fs0, s.fs, atts + ToSeq(s.attachment))
  {
  }

  /** Every entry inside a staged directory is one of the staged files. */
  ghost predicate OnlyStagedInside(fs: Fs, atts: seq<Attachment>)
  {
    && (forall p :: p in fs.files && Dirname(p) in DirSet(atts) ==> p in PathSet(atts))
    && (forall q :: q in fs.dirs ==> Dirname(q) !in DirSet(atts))
  }

  /** When the staged directories hold nothing but staged files, cleaning up
      removes every one of them, whatever their order and even when two
      attachments share a directory. */
  lemma {:induction false} CleanRemovesStagedDirs(fs: Fs, atts: seq<Attachment>)
    requires OnlyStagedInside(fs, atts)
    ensures CleanAttachments(fs, atts).dirs == fs.dirs - DirSet(atts)
    decreases |atts|
  {
    if |atts| > 0 {
      SplitSets(atts);
      var p := atts[0].path;
      var d := Dirname(p);
      var fs1 := Unlink(fs, p);
      var fs2 := RmDir(fs1, d);
      var rest := atts[1..];
      assert OnlyStagedInside(fs2, rest);
      CleanRemovesStagedDirs(fs2, rest);
    }
  }

  /** Cleaning up after staging on a well-formed filesystem restores it
      exactly: nothing staged is left and nothing else was touched. */
  lemma CleanUndoesStaging(fs0: Fs, fs: Fs, atts: seq<Attachment>)
    requires WellFormed(fs0)
    requires StagedOver(fs0, fs, atts)
    ensures CleanAttachments(fs, atts) == fs0
  {
    assert DirSet(atts) !! fs0.dirs;
    assert PathSet(atts) !! fs0.files.Keys by {
      forall a | a in atts
        ensures a.path !in fs0.files
      {
      }
    }
    assert OnlyStagedInside(fs, atts) by {
      forall q | q in fs.dirs
        ensures Dirname(q) !in DirSet(atts)
      {
        if q !in fs0.dirs {
          var a :| a in atts && Dirname(a.path) == q;
        }
      }
    }
    CleanRemovesStagedDirs(fs, atts);
    var r := CleanAttachments(fs, atts);
    assert r.files == fs0.files;
    assert r.dirs == fs0.dirs;
  }

  // ---------------------------------------------------------------------------
  // Writing the document
  // ---------------------------------------------------------------------------

  /** The descriptors the renderer receives. */
  function Attached(call: RenderCall): seq<Attachment>
  {
    if call.associated.Some? then call.associated.value else []
  }

  function Names(atts: seq<Attachment>): (ns: seq<string>)
    ensures |ns| == |atts|
    ensures forall i :: 0 <= i < |atts| ==> ns[i] == atts[i].name
  {
    seq(|atts|, i requires 0 <= i < |atts| => atts[i].name)
  }

  /** Which files reach the PDF: the original XML when enabled and staged,
      then the signature when enabled, present and staged. */
  function ExpectedNames(params: Params, signature: Option<string>,
                         xmlOutcome: StageOutcome, sigOutcome: StageOutcome): seq<string>
  {
    (if params.includeOriginalXml && xmlOutcome.Completes? then [OriginalXmlName] else [])
    + (if params.includeSignature && signature.Some? && sigOutcome.Completes? then [SignatureName] else [])
  }

  /** The warning a failed staging of `name` records. */
  function StagingWarning(name: string, outcome: StageOutcome): Warning
    requires outcome.Throws?
  {
    Warning(FailMessagePrefix + outcome.message, FailCodePrefix + name)
  }

  /** The warnings one write leaves: one per attempted staging that threw. */
  function ExpectedWarnings(params: Params, signature: Option<string>,
                            xmlOutcome: StageOutcome, sigOutcome: StageOutcome): seq<Warning>
  {
    (if params.includeOriginalXml && xmlOutcome.Throws?
     then [StagingWarning(OriginalXmlName, xmlOutcome)] else [])
    + (if params.includeSignature && signature.Some? && sigOutcome.Throws?
       then [StagingWarning(SignatureName, sigOutcome)] else [])
  }

  /** The result of `WriteContent`: the writer afterwards, the filesystem
      afterwards, what the renderer was told, and the filesystem it read. */
  datatype Written = Written(writer: Writer, fs: Fs, call: RenderCall, renderFs: Fs)

  /** The staging part of `WriteContent`: the descriptors collected, the
      writer with its warnings, and the filesystem the renderer reads. */
  datatype StagedAll = StagedAll(atts: seq<Attachment>, writer: Writer, fs: Fs)

  /** The original XML is staged whenever it is enabled. */
  function StageXml(w: Writer, fs: Fs, uniq: nat -> string, outcome: StageOutcome): Staged
    requires UniqueIds(uniq)
  {
    if w.params.includeOriginalXml
    then GenerateIncludeFile(w, fs, w.originalXml, OriginalXmlName, uniq, 0, outcome)
    else Staged(None, w, fs, 0)
  }

  /** The signature is staged when it is enabled and not null, continuing the
      `uniqid()` sequence where the original XML left it. */
  function StageSignature(s: Staged, uniq: nat -> string, outcome: StageOutcome): Staged
    requires UniqueIds(uniq)
  {
    var w := s.writer;
    if w.params.includeSignature && w.signature.Some?
    then GenerateIncludeFile(w, s.fs, w.signature.value, SignatureName, uniq, s.next, outcome)
    else Staged(None, w, s.fs, s.next)
  }

  function StageAll(w: Writer, fs: Fs, uniq: nat -> string,
                    xmlOutcome: StageOutcome, sigOutcome: StageOutcome): StagedAll
    requires UniqueIds(uniq)
  {
    var s1 := StageXml(w, fs, uniq, xmlOutcome);
    var s2 := StageSignature(s1, uniq, sigOutcome);
    StagedAll(ToSeq(s1.attachment) + ToSeq(s2.attachment), s2.writer, s2.fs)
  }

  /** Staging reports the expected attachments in order and appends exactly
      the expected warnings. */
  lemma StageAllReport(w: Writer, fs: Fs, uniq: nat -> string,
                       xmlOutcome: StageOutcome, sigOutcome: StageOutcome)
    requires UniqueIds(uniq)
    ensures var r := StageAll(w, fs, uniq, xmlOutcome, sigOutcome);
      && Names(r.atts) == ExpectedNames(w.params, w.signature, xmlOutcome, sigOutcome)
      && r.writer == w.(warnings := w.warnings + ExpectedWarnings(w.params, w.signature, xmlOutcome, sigOutcome))
  {
  }

  /** Every staged descriptor carries the fixed fields, lies in a directory
      directly under the temporary root, and its file holds the content that
      was staged under its name; the two staged files never share a
      directory. */
  lemma StageAllFiles(w: Writer, fs: Fs, uniq: nat -> string,
                      xmlOutcome: StageOutcome, sigOutcome: StageOutcome)
    requires UniqueIds(uniq)
    ensures var r := StageAll(w, fs, uniq, xmlOutcome, sigOutcome);
      forall a :: a in r.atts ==>
        && a.mime == XmlMime && a.description == AttachmentDescription && a.relationship == Relationship
        && Dirname(Dirname(a.path)) == TempRoot
        && a.path in r.fs.files
        && (a.name == OriginalXmlName ==> r.fs.files[a.path] == w.originalXml)
        && (a.name == SignatureName ==> w.signature == Some(r.fs.files[a.path]))
    // the second staging draws its directory after the first one exists
    ensures var r := StageAll(w, fs, uniq, xmlOutcome, sigOutcome);
      |r.atts| == 2 ==> Dirname(r.atts[0].path) != Dirname(r.atts[1].path)
  {
  }

  /** On a well-formed filesystem, staging adds the staged files and their
      fresh directories and nothing else. */
  lemma StageAllStagedOver(w: Writer, fs: Fs, uniq: nat -> string,
                           xmlOutcome: StageOutcome, sigOutcome: StageOutcome)
    requires UniqueIds(uniq)
    requires WellFormed(fs)
    ensures var r := StageAll(w, fs, uniq, xmlOutcome, sigOutcome);
            StagedOver(fs, r.fs, r.atts)
  {
    var s1 := StageXml(w, fs, uniq, xmlOutcome);
    var a1 := ToSeq(s1.attachment);
    assert StagedOver(fs, fs, []);
    if w.params.includeOriginalXml {
      StageExtends(fs, fs, [], w, w.originalXml, OriginalXmlName, uniq, 0, xmlOutcome);
    }
    assert [] + a1 == a1;
    assert StagedOver(fs, s1.fs, a1);
    if w.params.includeSignature && w.signature.Some? {
      StageExtends(fs, s1.fs, a1, s1.writer, w.signature.value, SignatureName, uniq, s1.next, sigOutcome);
    } else {
      assert a1 + [] == a1;
    }
  }

  /** `WriteContent(html, invoice)` on the success path of the renderer. */
  function WriteContent(w: Writer, fs: Fs, html: string, invoice: Invoice, env: Env,
                        xmlOutcome: StageOutcome, sigOutcome: StageOutcome): (r: Written)
    requires UniqueIds(env.uniq)
    ensures r.writer.params == w.params && r.writer.originalXml == w.originalXml
    ensures r.writer.signature == w.signature && r.writer.memoryOnly == w.memoryOnly
    // warnings start empty: only this call's failed stagings are reported
    ensures GetWarnings(r.writer) == ExpectedWarnings(w.params, w.signature, xmlOutcome, sigOutcome)
    // the renderer gets the metadata, the HTML and the staged attachments
    ensures r.call.title == w.params.title && r.call.author == w.params.author
    ensures r.call.creator == w.params.creator && r.call.subject == w.params.subject
    ensures r.call.keywords == w.params.keywords && r.call.footer == w.params.footerText
    ensures r.call.html == html
    ensures Names(Attached(r.call)) == ExpectedNames(w.params, w.signature, xmlOutcome, sigOutcome)
    ensures r.call.associated.Some? <==> |Attached(r.call)| > 0
    ensures forall a :: a in Attached(r.call) ==>
      && a.mime == XmlMime && a.description == AttachmentDescription && a.relationship == Relationship
      && Dirname(Dirname(a.path)) == TempRoot
    // the renderer reads each staged file with the content it was given
    ensures forall a :: a in Attached(r.call) ==>
      && a.path in r.renderFs.files
      && (a.name == OriginalXmlName ==> r.renderFs.files[a.path] == w.originalXml)
      && (a.name == SignatureName ==> w.signature == Some(r.renderFs.files[a.path]))
    // the renderer is called once and its output is kept
    ensures r.writer.lastPdf == Some(env.render(r.call, r.renderFs))
    // the output path is resolved only on disk, where it then holds the PDF
    ensures w.memoryOnly ==> r.writer.path == w.path
    ensures !w.memoryOnly ==>
      && r.writer.path == Some(env.resolve(w.path, invoice, PdfExtension, fs))
      && r.writer.path.value in r.fs.files
      && r.fs.files[r.writer.path.value] == r.writer.lastPdf.value
  {
    var w0 := w.(warnings := []);
    var w1 := if !w0.memoryOnly then w0.(path := Some(env.resolve(w0.path, invoice, PdfExtension, fs))) else w0;
    StageAllReport(w1, fs, env.uniq, xmlOutcome, sigOutcome);
    StageAllFiles(w1, fs, env.uniq, xmlOutcome, sigOutcome);
    var StagedAll(atts, w2, staged) := StageAll(w1, fs, env.uniq, xmlOutcome, sigOutcome);
    var call := RenderCall(w1.params.title, w1.params.author, w1.params.creator, w1.params.subject,
                           w1.params.keywords, w1.params.footerText, html,
                           if |atts| > 0 then Some(atts) else None);
    var pdf := env.render(call, staged);
    var w3 := w2.(lastPdf := Some(pdf));
    var cleaned := CleanAttachments(staged, atts);
    if w3.memoryOnly then Written(w3, cleaned, call, staged)
    else Written(w3, PutContents(cleaned, w3.path.value, pdf), call, staged)
  }
}
