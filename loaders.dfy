/** Choosing a document loader by file extension (Backend/loaders.py). The
    PDF, DOCX and plain-text parsers, UTF-8 decoding and fetching a web page
    are parameters; what the module decides itself is which of them runs and
    how a URL file is checked. */
module Loaders {
  import opened Wrappers
  import opened Text
  import opened Storage

  /** The page texts a loader returns (one LangChain Document each). */
  type Docs = seq<string>

  /** The external loaders. Each parser is given the file's content, or None
      when there is no file at the path. */
  datatype Parsers = Parsers(
    pdf: Option<Bytes> -> Result<Docs>,
    docx: Option<Bytes> -> Result<Docs>,
    text: Option<Bytes> -> Result<Docs>,
    decode: Bytes -> Result<string>,
    fetch: string -> Result<Docs>)

  datatype Loader = PdfLoader | DocxLoader | TextLoader | UrlLoader

  /** load_docs_by_ext's choice: by the lower-cased extension, with the text
      loader for "txt", "text" and anything unknown. */
  function LoaderFor(ext: string): (r: Loader)
    ensures r == PdfLoader <==> Lower(ext) == "pdf"
    ensures r == DocxLoader <==> Lower(ext) == "docx"
    ensures r == UrlLoader <==> Lower(ext) == "url"
    ensures r == TextLoader <==> Lower(ext) !in {"pdf", "docx", "url"}
  {
    var e := Lower(ext);
    if e == "pdf" then PdfLoader
    else if e == "docx" then DocxLoader
    else if e == "txt" || e == "text" then TextLoader
    else if e == "url" then UrlLoader
    else TextLoader
  }

  /** The choice does not depend on the case of the extension. */
  lemma LoaderForIgnoresCase(ext: string)
    ensures LoaderFor(Upper(ext)) == LoaderFor(ext)
    ensures LoaderFor(Lower(ext)) == LoaderFor(ext)
  {
    LowerOfUpper(ext);
    LowerTwice(ext);
  }

  lemma LowerTwice(s: string)
    ensures Lower(Lower(s)) == Lower(s)
  {
  }

  const UrlErrorPrefix := "URL Loader Error: "

  /** The accepted URL schemes. */
  predicate IsWebUrl(url: string) {
    StartsWith(url, "http://") || StartsWith(url, "https://")
  }

  /** The URL a URL file holds: its text without surrounding white space,
      which must start with http:// or https://. */
  function UrlIn(text: string): (r: Result<string>)
    ensures r.Success? <==> IsWebUrl(Strip(text))
    ensures r.Success? ==> r.value == Strip(text)
    ensures r.Failure? ==> r.error == "Invalid URL format"
  {
    var url := Strip(text);
    if IsWebUrl(url) then Success(url) else Failure("Invalid URL format")
  }

  /** open(path, encoding="utf-8").read() */
  function ReadText(path: string, file: Option<Bytes>, p: Parsers): Result<string> {
    match file
    case None => Failure(NoSuchFile(path))
    case Some(bytes) => p.decode(bytes)
  }

  /** load_url_file(path): reads the URL from the file and loads that page;
      every failure, its own or the fetch's, is reported with the
      "URL Loader Error: " prefix. */
  function LoadUrlFile(path: string, file: Option<Bytes>, p: Parsers): (r: Result<Docs>)
    ensures r.Failure? ==> StartsWith(r.error, UrlErrorPrefix)
    ensures r.Success? <==>
      ReadText(path, file, p).Success? && UrlIn(ReadText(path, file, p).value).Success? &&
      p.fetch(Strip(ReadText(path, file, p).value)).Success?
    ensures r.Success? ==> r.value == p.fetch(Strip(ReadText(path, file, p).value)).value
    ensures file.None? ==> r == Failure(UrlErrorPrefix + NoSuchFile(path))
  {
    match ReadText(path, file, p)
    case Failure(e) => Failure(UrlErrorPrefix + e)
    case Success(text) =>
      match UrlIn(text)
      case Failure(e) => Failure(UrlErrorPrefix + e)
      case Success(url) =>
        match p.fetch(url)
        case Failure(e) => Failure(UrlErrorPrefix + e)
        case Success(docs) => Success(docs)
  }

  /** load_docs_by_ext(ext, path): PDF, DOCX and URL files by their
      extensions in any case, and the text loader for everything else. */
  function LoadDocsByExt(ext: string, path: string, file: Option<Bytes>, p: Parsers): (r: Result<Docs>)
    ensures Lower(ext) == "pdf" ==> r == p.pdf(file)
    ensures Lower(ext) == "docx" ==> r == p.docx(file)
    ensures Lower(ext) == "url" ==> r == LoadUrlFile(path, file, p)
    ensures Lower(ext) !in {"pdf", "docx", "url"} ==> r == p.text(file)
  {
    match LoaderFor(ext)
    case PdfLoader => p.pdf(file)
    case DocxLoader => p.docx(file)
    case TextLoader => p.text(file)
    case UrlLoader => LoadUrlFile(path, file, p)
  }

  /** An upper-case extension loads the same way as its lower-case form. */
  lemma LoadDocsIgnoresCase(ext: string, path: string, file: Option<Bytes>, p: Parsers)
    ensures LoadDocsByExt(Upper(ext), path, file, p) == LoadDocsByExt(ext, path, file, p)
  {
    LoaderForIgnoresCase(ext);
  }
}
