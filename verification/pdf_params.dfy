/**
 Document metadata handed to the PDF renderer, and its derivation from a
 parsed invoice (src/PDFParams.php).
 */
module PdfParams {

  /** The two invoice fields the derivation reads: the invoice number and the
      name the supplier party reports. */
  datatype Invoice = Invoice(id: string, supplierName: string)

  /** Footer template; the renderer substitutes page number and page count. */
  const DefaultFooter: string := "Pagina {PAGENO} din {nbpg}"
  const TitlePrefix: string := "Fact. "
  const InvoiceSubject: string := "Factura electronica"
  const KeywordsPrefix: string := "Factura electronica, "

  datatype Params = Params(
    title: string,
    author: string,
    creator: string,
    subject: string,
    keywords: string,
    includeOriginalXml: bool,
    includeSignature: bool,
    footerText: string)

  /** The constructor: every argument lands in its own field, the footer keeps
      its initialiser. */
  function New(title: string := "", author: string := "", creator: string := "",
               subject: string := "", keywords: string := "",
               includeOriginalXml: bool := true, includeSignature: bool := true): (p: Params)
    ensures p.title == title && p.author == author && p.creator == creator
    ensures p.subject == subject && p.keywords == keywords
    ensures p.includeOriginalXml == includeOriginalXml && p.includeSignature == includeSignature
    ensures p.footerText == DefaultFooter
  {
    Params(title, author, creator, subject, keywords,
           includeOriginalXml, includeSignature, DefaultFooter)
  }

  /** `new PDFParams()` */
  function Default(): (p: Params)
    ensures p.title == "" && p.author == "" && p.creator == ""
    ensures p.subject == "" && p.keywords == ""
    ensures p.includeOriginalXml && p.includeSignature
    ensures p.footerText == DefaultFooter
  {
    New()
  }

  /** `PDFParams::FromInvoice`: start from the defaults and fill in the five
      text fields from the invoice. */
  function FromInvoice(inv: Invoice): (p: Params)
    ensures p.title == TitlePrefix + inv.id
    ensures p.author == inv.supplierName && p.creator == p.author
    ensures p.subject == InvoiceSubject
    ensures p.keywords == KeywordsPrefix + inv.id
    ensures p.includeOriginalXml && p.includeSignature
    ensures p.footerText == DefaultFooter
  {
    Default().(title := TitlePrefix + inv.id,
               author := inv.supplierName,
               creator := inv.supplierName,
               subject := InvoiceSubject,
               keywords := KeywordsPrefix + inv.id)
  }

  /** Reads the invoice number back out of a title built by `FromInvoice`. */
  function TitleInvoiceId(title: string): (id: string)
    requires |title| >= |TitlePrefix| && title[..|TitlePrefix|] == TitlePrefix
    ensures title == TitlePrefix + id
  {
    title[|TitlePrefix|..]
  }

  /** Every record with the initialised footer is exactly what the constructor
      builds from its fields, and the constructor's fields read back as its
      arguments: the constructor neither drops nor invents anything. */
  lemma NewRoundTrip(p: Params)
    requires p.footerText == DefaultFooter
    ensures New(p.title, p.author, p.creator, p.subject, p.keywords,
                p.includeOriginalXml, p.includeSignature) == p
  {
  }

  /** The invoice number can be recovered from the title, and the keywords
      agree with it. */
  lemma FromInvoiceRecoversId(inv: Invoice)
    ensures var p := FromInvoice(inv);
            |p.title| >= |TitlePrefix| && p.title[..|TitlePrefix|] == TitlePrefix
            && TitleInvoiceId(p.title) == inv.id
            && p.keywords == KeywordsPrefix + TitleInvoiceId(p.title)
  {
  }

  /** Two invoices get the same metadata exactly when they agree on number and
      supplier name. */
  lemma FromInvoiceInjective(a: Invoice, b: Invoice)
    ensures FromInvoice(a) == FromInvoice(b) <==> a == b
  {
    if FromInvoice(a) == FromInvoice(b) {
      FromInvoiceRecoversId(a);
      FromInvoiceRecoversId(b);
    }
  }

  /** `FromInvoice` agrees with calling the constructor on the derived strings. */
  lemma FromInvoiceViaConstructor(inv: Invoice)
    ensures FromInvoice(inv) == New(TitlePrefix + inv.id, inv.supplierName, inv.supplierName,
                                    InvoiceSubject, KeywordsPrefix + inv.id)
  {
  }
}
