/** Gopher item kinds (`EltType`), the one-character wire codes that select
    them, listing entries (`FsElement`) and the error values the client
    reports. Codes 0-9, '+', 'g' and 'I' are those of section 3.8 of
    RFC 1436; 'h', 'i', 'p' and 'j' are common extensions. */
module Items {
  import opened Wrappers
  import opened Text

  datatype EltType =
    | TextFile
    | Directory
    | CCSONameServer
    | Error
    | BinHexMacintoshFile
    | DOSBinaryFile
    | UuencodedFile
    | FullTextSearchServer
    | TelnetTextSession
    | BinaryFile
    | MirrorServer
    | GIFFile
    | ImageFile
    | JPGFile
    | PNGFile
    | HTMLFile
    | InformationalMessage

  /** One entry of a directory listing: its kind, the text shown to the user,
      the selector sent to fetch it, and the server that holds it. */
  datatype FsElement = FsElement(
    eltType: EltType,
    content: string,
    link: string,
    server: string,
    port: u16)

  /** The `io::Error` values the client produces, by message. */
  datatype IoError =
    | Usage                      // "Usage: gaufre HOST[:PORT]"
    | Transport                  // connect, write or read failed
    | InvalidUtf8                // "UTF8-invalid data"
    | UnknownItemType(code: char)
    | MalformedElement(text: string)
    | InvalidPort(text: string)

  /** The seventeen wire codes the client understands. */
  const ITEM_CODES: set<char> :=
    {'0', '1', '2', '3', '4', '5', '6', '7', '8', '9', '+', 'g', 'I', 'p', 'j', 'h', 'i'}

  /** Wire code of each kind: the inverse of `TryFrom`. */
  function Code(t: EltType): (c: char)
    ensures c in ITEM_CODES
  {
    match t
    case TextFile => '0'
    case Directory => '1'
    case CCSONameServer => '2'
    case Error => '3'
    case BinHexMacintoshFile => '4'
    case DOSBinaryFile => '5'
    case UuencodedFile => '6'
    case FullTextSearchServer => '7'
    case TelnetTextSession => '8'
    case BinaryFile => '9'
    case MirrorServer => '+'
    case GIFFile => 'g'
    case ImageFile => 'I'
    case PNGFile => 'p'
    case JPGFile => 'j'
    case HTMLFile => 'h'
    case InformationalMessage => 'i'
  }

  /** `EltType::try_from(c)`: decodes exactly the seventeen codes, each to the
      kind whose code it is; anything else is "Unknown item type". */
  function TryFrom(c: char): (r: Result<EltType, IoError>)
    ensures r.Ok? <==> c in ITEM_CODES
    ensures r.Ok? ==> Code(r.value) == c
    ensures r.Err? ==> r.error == UnknownItemType(c)
  {
    match c
    case '0' => Ok(TextFile)
    case '1' => Ok(Directory)
    case '2' => Ok(CCSONameServer)
    case '3' => Ok(Error)
    case '4' => Ok(BinHexMacintoshFile)
    case '5' => Ok(DOSBinaryFile)
    case '6' => Ok(UuencodedFile)
    case '7' => Ok(FullTextSearchServer)
    case '8' => Ok(TelnetTextSession)
    case '9' => Ok(BinaryFile)
    case '+' => Ok(MirrorServer)
    case 'g' => Ok(GIFFile)
    case 'I' => Ok(ImageFile)
    case 'p' => Ok(PNGFile)
    case 'j' => Ok(JPGFile)
    case 'h' => Ok(HTMLFile)
    case 'i' => Ok(InformationalMessage)
    case _ => Err(UnknownItemType(c))
  }

  /** Every kind is decoded from its own code, so distinct kinds have distinct
      codes and the table is a bijection between the codes and the kinds. */
  lemma {:induction false} TryFromCode(t: EltType)
    ensures TryFrom(Code(t)) == Ok(t)
  {
    match t
    case TextFile =>
    case Directory =>
    case CCSONameServer =>
    case Error =>
    case BinHexMacintoshFile =>
    case DOSBinaryFile =>
    case UuencodedFile =>
    case FullTextSearchServer =>
    case TelnetTextSession =>
    case BinaryFile =>
    case MirrorServer =>
    case GIFFile =>
    case ImageFile =>
    case JPGFile =>
    case PNGFile =>
    case HTMLFile =>
    case InformationalMessage =>
  }

  lemma CodeInjective(a: EltType, b: EltType)
    requires Code(a) == Code(b)
    ensures a == b
  {
    TryFromCode(a);
    TryFromCode(b);
  }

  /** Every code is ASCII, so it takes one byte and is never a line or field
      separator. */
  lemma CodeIsPlain(t: EltType)
    ensures Utf8Width(Code(t)) == 1
    ensures Code(t) != '\r' && Code(t) != '\n' && Code(t) != TAB
  {
  }
}
