/**
 Properties of a whole `WriteContent` call (src/PDFWriter.php:54-97): what
 reaches the renderer, which warnings remain, and what the filesystem looks
 like afterwards.
 */
module PdfWriterProperties {
  import opened Options
  import opened Paths
  import opened FileSystem
  import opened PdfParams
  import opened PdfWriter

  function Codes(ws: seq<Warning>): (cs: seq<string>)
    ensures |cs| == |ws|
    ensures forall i :: 0 <= i < |ws| ==> cs[i] == ws[i].code
  {
    seq(|ws|, i requires 0 <= i < |ws| => ws[i].code)
  }

  /** At most two files are attached, the original XML before the signature;
      the original XML is attached exactly when it is enabled and staged, the
      signature exactly when it is enabled, not null and staged. */
  lemma AttachmentRules(w: Writer, fs: Fs, html: string, invoice: Invoice, env: Env,
                        xmlOutcome: StageOutcome, sigOutcome: StageOutcome)
    requires UniqueIds(env.uniq)
    ensures var ns := Names(Attached(WriteContent(w, fs, html, invoice, env, xmlOutcome, sigOutcome).call));
      && |ns| <= 2
      && (OriginalXmlName in ns <==> w.params.includeOriginalXml && xmlOutcome.Completes?)
      && (SignatureName in ns <==> w.params.includeSignature && w.signature.Some? && sigOutcome.Completes?)
      && (|ns| == 2 ==> ns[0] == OriginalXmlName && ns[1] == SignatureName)
  {
  }

  /** Every enabled staging ends in exactly one of two ways: its file is
      attached, or a single warning `INC_FAIL_<name>` is recorded. Nothing
      else produces a warning. */
  lemma StagingFailureRules(w: Writer, fs: Fs, html: string, invoice: Invoice, env: Env,
                            xmlOutcome: StageOutcome, sigOutcome: StageOutcome)
    requires UniqueIds(env.uniq)
    ensures var r := WriteContent(w, fs, html, invoice, env, xmlOutcome, sigOutcome);
            var cs := Codes(GetWarnings(r.writer));
            var ns := Names(Attached(r.call));
      && |cs| <= 2
      && (forall c :: c in cs ==> c == FailCodePrefix + OriginalXmlName || c == FailCodePrefix + SignatureName)
      && (FailCodePrefix + OriginalXmlName in cs <==> w.params.includeOriginalXml && xmlOutcome.Throws?)
      && (FailCodePrefix + SignatureName in cs <==> w.params.includeSignature && w.signature.Some? && sigOutcome.Throws?)
      && (w.params.includeOriginalXml ==> (OriginalXmlName in ns <==> FailCodePrefix + OriginalXmlName !in cs))
      && (w.params.includeSignature && w.signature.Some? ==>
            (SignatureName in ns <==> FailCodePrefix + SignatureName !in cs))
  {
    var r := WriteContent(w, fs, html, invoice, env, xmlOutcome, sigOutcome);
    AttachmentRules(w, fs, html, invoice, env, xmlOutcome, sigOutcome);
    var cs := Codes(GetWarnings(r.writer));
    assert FailCodePrefix + OriginalXmlName != FailCodePrefix + SignatureName by {
      assert (FailCodePrefix + OriginalXmlName)[9] != (FailCodePrefix + SignatureName)[9];
    }
    var xmlFails := w.params.includeOriginalXml && xmlOutcome.Throws?;
    var sigFails := w.params.includeSignature && w.signature.Some? && sigOutcome.Throws?;
    assert cs == (if xmlFails then [FailCodePrefix + OriginalXmlName] else [])
               + (if sigFails then [FailCodePrefix + SignatureName] else []);
  }

  /** A null signature is never staged and never warned about. */
  lemma NullSignatureIgnored(w: Writer, fs: Fs, html: string, invoice: Invoice, env: Env,
                             xmlOutcome: StageOutcome, sigOutcome: StageOutcome)
    requires UniqueIds(env.uniq)
    requires w.signature.None?
    ensures var r := WriteContent(w, fs, html, invoice, env, xmlOutcome, sigOutcome);
      && SignatureName !in Names(Attached(r.call))
      && FailCodePrefix + SignatureName !in Codes(GetWarnings(r.writer))
  {
  }

  /** With both attachments disabled nothing is staged, nothing is warned
      about, and `SetAssociatedFiles` is not called. */
  lemma NothingEnabled(w: Writer, fs: Fs, html: string, invoice: Invoice, env: Env,
                       xmlOutcome: StageOutcome, sigOutcome: StageOutcome)
    requires UniqueIds(env.uniq)
    requires !w.params.includeOriginalXml && !w.params.includeSignature
    ensures var r := WriteContent(w, fs, html, invoice, env, xmlOutcome, sigOutcome);
      && r.call.associated.None?
      && GetWarnings(r.writer) == []
  {
  }

  /** The warnings left by a call do not depend on what earlier calls left:
      the whole outcome is the same whatever the writer held before. */
  lemma WarningsReset(w: Writer, earlier: seq<Warning>, fs: Fs, html: string, invoice: Invoice, env: Env,
                      xmlOutcome: StageOutcome, sigOutcome: StageOutcome)
    requires UniqueIds(env.uniq)
    ensures WriteContent(w.(warnings := earlier), fs, html, invoice, env, xmlOutcome, sigOutcome)
         == WriteContent(w, fs, html, invoice, env, xmlOutcome, sigOutcome)
  {
  }

  /** The staging does not look at the output path or the mode. */
  lemma StagingIgnoresOutput(w: Writer, path: Option<Path>, memoryOnly: bool,
                             fs: Fs, uniq: nat -> string,
                             xmlOutcome: StageOutcome, sigOutcome: StageOutcome)
    requires UniqueIds(uniq)
    ensures var a := StageAll(w, fs, uniq, xmlOutcome, sigOutcome);
            var b := StageAll(w.(path := path, memoryOnly := memoryOnly), fs, uniq, xmlOutcome, sigOutcome);
      && a.atts == b.atts && a.fs == b.fs
      && b.writer == a.writer.(path := path, memoryOnly := memoryOnly)
  {
  }

  /** Memory-only and disk mode render the same document from the same
      inputs: the bytes kept in memory are the bytes disk mode persists. */
  lemma ModesRenderAlike(w: Writer, fs: Fs, html: string, invoice: Invoice, env: Env,
                         xmlOutcome: StageOutcome, sigOutcome: StageOutcome)
    requires UniqueIds(env.uniq)
    ensures var m := WriteContent(w.(memoryOnly := true), fs, html, invoice, env, xmlOutcome, sigOutcome);
            var d := WriteContent(w.(memoryOnly := false), fs, html, invoice, env, xmlOutcome, sigOutcome);
      && m.call == d.call
      && m.renderFs == d.renderFs
      && m.writer.lastPdf == d.writer.lastPdf
      && d.fs.files[d.writer.path.value] == m.writer.lastPdf.value
  {
  }

  /** On a well-formed filesystem a call leaves nothing of its staging
      behind: in memory-only mode the filesystem is exactly as before, and in
      disk mode the only change is the PDF at the resolved path. The renderer
      saw the filesystem as it was plus the staged files. */
  lemma WriteContentFilesystem(w: Writer, fs: Fs, html: string, invoice: Invoice, env: Env,
                               xmlOutcome: StageOutcome, sigOutcome: StageOutcome)
    requires UniqueIds(env.uniq)
    requires WellFormed(fs)
    ensures var r := WriteContent(w, fs, html, invoice, env, xmlOutcome, sigOutcome);
      && StagedOver(fs, r.renderFs, Attached(r.call))
      && (w.memoryOnly ==> r.fs == fs)
      && (!w.memoryOnly ==> r.fs == PutContents(fs, r.writer.path.value, r.writer.lastPdf.value))
  {
    var w0 := w.(warnings := []);
    var w1 := if !w0.memoryOnly then w0.(path := Some(env.resolve(w0.path, invoice, PdfExtension, fs))) else w0;
    var s := StageAll(w1, fs, env.uniq, xmlOutcome, sigOutcome);
    StageAllStagedOver(w1, fs, env.uniq, xmlOutcome, sigOutcome);
    CleanUndoesStaging(fs, s.fs, s.atts);
    var r := WriteContent(w, fs, html, invoice, env, xmlOutcome, sigOutcome);
    assert Attached(r.call) == s.atts;
  }
}
