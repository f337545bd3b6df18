/**
 The input check the scanner runs before it loads anything: the target URL
 must have a scheme and a host, and the dork list must name an existing file
 whose name ends in `.csv`. The URL parser and the file-system test are not
 part of this model: their answers arrive as `UrlParse` and `fileExists`.
 */
module Validation {
  import opened Strings

  /** What `urlparse` returned: the two components the check reads, or an exception. */
  datatype UrlParse = Parsed(scheme: string, netloc: string) | Raised

  const BadUrlFormat: string := "Invalid URL format. Please include http:// or https://"
  const BadUrl: string := "Invalid URL format"
  const NotCsv: string := "Dorks file must be a CSV file"

  function FileNotFound(path: string): string {
    "Dorks file not found: " + path
  }

  /** The URL is rejected when parsing raised or left the scheme or the host empty. */
  predicate UrlRejected(url: UrlParse) {
    url.Raised? || url.scheme == "" || url.netloc == ""
  }

  /**
   The file name test: lower-cased, it ends with `.csv`. Read character by
   character, the last four characters are a dot and the letters c, s, v,
   each in either case.
   */
  function IsCsvName(path: string): (b: bool)
    ensures b <==>
      && |path| >= 4
      && path[|path| - 4] == '.'
      && path[|path| - 3] in "cC"
      && path[|path| - 2] in "sS"
      && path[|path| - 1] in "vV"
  {
    var l := Lower(path);
    assert |path| >= 4 ==> l[|l| - 4..] == [l[|l| - 4], l[|l| - 3], l[|l| - 2], l[|l| - 1]];
    EndsWith(l, ".csv")
  }

  /** The file is rejected when it is missing, or present under a name that is not a CSV name. */
  predicate FileRejected(fileExists: bool, path: string) {
    !fileExists || !IsCsvName(path)
  }

  /** The messages that speak about the URL and about the file. */
  predicate IsUrlMessage(m: string) {
    m == BadUrlFormat || m == BadUrl
  }

  predicate IsFileMessage(m: string, path: string) {
    m == FileNotFound(path) || m == NotCsv
  }

  /** No message is both a URL message and a file message, and the four texts differ. */
  lemma MessagesDistinct(path: string)
    ensures BadUrlFormat != BadUrl
    ensures FileNotFound(path) != NotCsv
    ensures !IsFileMessage(BadUrlFormat, path) && !IsFileMessage(BadUrl, path)
  {
    assert |BadUrlFormat| != |BadUrl|;
    assert FileNotFound(path)[11] == 'n' && NotCsv[11] == 'm';
    assert FileNotFound(path)[0] == 'D';
  }

  /**
   Collects the error messages for a target URL and a dork file, URL message
   first. At most one message concerns the URL and at most one the file: the
   missing-file and wrong-name messages exclude each other, and the name is
   only looked at once the file exists.
   */
  method ValidateInputs(url: UrlParse, fileExists: bool, dorksFile: string) returns (errors: seq<string>)
    ensures errors == [] <==>
      url.Parsed? && url.scheme != "" && url.netloc != "" && fileExists && IsCsvName(dorksFile)
    ensures |errors| == (if UrlRejected(url) then 1 else 0) + (if FileRejected(fileExists, dorksFile) then 1 else 0)
    ensures (BadUrlFormat in errors) <==> url.Parsed? && (url.scheme == "" || url.netloc == "")
    ensures (BadUrl in errors) <==> url.Raised?
    ensures (FileNotFound(dorksFile) in errors) <==> !fileExists
    ensures (NotCsv in errors) <==> fileExists && !IsCsvName(dorksFile)
    ensures UrlRejected(url) ==> IsUrlMessage(errors[0])
    ensures FileRejected(fileExists, dorksFile) ==> IsFileMessage(errors[|errors| - 1], dorksFile)
  {
    MessagesDistinct(dorksFile);
    errors := [];
    match url {
      case Raised =>
        errors := errors + [BadUrl];
      case Parsed(scheme, netloc) =>
        if scheme == "" || netloc == "" {
          errors := errors + [BadUrlFormat];
        }
    }
    if !fileExists {
      errors := errors + [FileNotFound(dorksFile)];
    } else if !IsCsvName(dorksFile) {
      errors := errors + [NotCsv];
    }
  }
}
