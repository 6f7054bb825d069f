# gaufre core, modelled in Dafny

gaufre is a terminal Gopher client (RFC 1436). This project models its
protocol engine from `src/main.rs`:

- the item-type table (`EltType`, `try_from`);
- the two-letter label codec (`n_alpha`, `alpha_nth`);
- the parsing pipeline of `get_listing`;
- `parse_host`;
- the navigation session that `reboot`, `link`, `command` and `getline`
  update in place;
- the `history`/`hp` set-up of `try_main`.

Layout, one module per file:

| file | module | models |
|---|---|---|
| `wrappers.dfy` | `Wrappers` | `Option`, `Result` |
| `text.dfy` | `Text` | the `str` operations the client uses: UTF-8 byte length, `trim`, `split_once`, `split('\t')`, `split("\r\n")`, `parse::<u16>()` |
| `items.dfy` | `Items` | `EltType`, `TryFrom<char>`, `FsElement`, the error values |
| `labels.dfy` | `Labels` | `n_alpha`, `alpha_nth` |
| `listing.dfy` | `Listing` | `get_listing` after the request: split, filter, parse, all or nothing |
| `hosts.dfy` | `Hosts` | `parse_host` |
| `menu.dfy` | `Menu` | label numbering of `display_elements`, selection and input classification of `getline` |
| `navigation.dfy` | `Navigation` | the session: `reboot`, `link`, `command`, `getline`, start-up |

Modelling choices:

- Strings are sequences of Unicode scalar values. The source's `len()` tests count
  UTF-8 bytes, so the model computes byte lengths explicitly (`Text.ByteLen`).
- Integer widths follow a release build. `n_alpha` truncates to `u8` and adds with
  wrap-around. The label counter of `display_elements` is a `u16` that wraps.
- Every network request goes to an oracle `net: Location -> Reply`.
  A reply is `Received(text)` (valid UTF-8), `NotUtf8` or `Unreachable`
  (connect, write or read failed).
- What the user types at a prompt is a parameter. It is trimmed as the `prompt!`
  macro does (Unicode White_Space, `Text.Trim`).
- The session is the class `Navigation.Session`. Its fields are `host`, `port`,
  `path`, `history`, `hp` and `elements`. The effect of each method is a two-state
  predicate (`Rebooted`, `Visited`, `LinkEffect`, `CommandEffect`, `GetlineEffect`).
  `Getline`'s contract is stated through the same predicates as `Command`'s and `Link`'s.
- Behaviour kept as the source has it:
  - Display numbering skips informational and error elements. Selection skips
    only informational ones (`Menu.NumberingMismatch`).
  - A visit appends to the history even after going back.
  - `r` reloads `history[hp]`, not the server set by `s`.
  - `s` leaves `history` and `hp` alone.
  - Location fields are assigned before the fetch. A failed fetch leaves them
    changed while `elements` stays as it was.
  - A single two-byte character typed as a label passes the byte-length test
    and panics (`Input.Crash`, `Outcome.Panic`).

Behaviour of the code that a reader might not expect:

- Error elements are selectable. The code filters out only informational
  messages when it resolves a label.
- `link` fetches the selected item before dispatching on its kind. This applies to
  every kind except directories and mirrors, including search servers, telnet
  sessions, CCSO servers and error elements. A failed fetch returns the error
  before the search prompt, so the search visit does not happen.
- An HTML item skips that fetch when its display text starts with `URL:`.
  The browser branch instead tests the selector. The model keeps both tests as written.
- An empty search string is not treated as a cancellation. It is appended to the
  selector like any other.
- `s` with an invalid argument prints a message and returns `Ok`. `s` with no
  argument prints the current server. Neither changes the state.
- `u16` parsing is Rust's. It accepts one leading `+` and leading zeros. It
  refuses an empty string, a lone `+`, any other non-digit, and values above 65535.
- A listing line must be at least 8 bytes long. Shorter well-formed lines, such as
  `1\t\th\t70`, are refused. The round trip `Listing.ListingRoundTrip` therefore
  assumes lines of 8 bytes or more.

## Model

| member | source | states |
|---|---|---|
| Items.TryFrom | src/main.rs:58-86 | decodes exactly the 17 codes `0-9 + g I p j h i`, each to the kind whose code it is; every other character gives "Unknown item type" with that character |
| Items.TryFromCode | src/main.rs:36-86 | every kind is decoded from its own code (the table is a bijection between 17 codes and 17 kinds) |
| Items.CodeInjective | src/main.rs:61-85 | distinct kinds have distinct codes |
| Labels.NAlpha | src/main.rs:111-116 | the second character is always a lowercase letter, and so is the first for every n < 676; `DecodeEncode` and `DecodeEncodeWide` pin the label for n < 676 and whenever the wrapped first digit is below 26; otherwise they state only that the label does not decode (and, for 676 <= n < 4134, that its first character is past 'z') |
| Labels.AlphaNth | src/main.rs:118-128 | yields an ordinal exactly when both characters are in 'a'..'z', and the ordinal is below 676 |
| Labels.DecodeEncode | src/main.rs:111-128 | for every n < 676 the label of n is two lowercase letters and decodes back to n |
| Labels.EncodeDecode | src/main.rs:111-128 | every pair of lowercase letters decodes to an ordinal whose label is that pair |
| Labels.DecodeEncodeWide | src/main.rs:111-116 | over all of u16, a label decodes only when the wrapped first letter lands in 'a'..'z', then to n mod 6656; for 676 <= n < 4134 the first character is past 'z' |
| Text.ByteLenAtLeastLength | src/main.rs:164 | byte length is at least the character count, with equality exactly for ASCII strings |
| Text.ByteLenTwo | src/main.rs:452-457 | a 2-byte line is two ASCII characters or one 2-byte character |
| Text.Trim | src/main.rs:229 | the trimmed line neither starts nor ends with white space |
| Text.TrimStart | src/main.rs:229 | removes exactly the leading white space: a suffix of the input, preceded only by white space |
| Text.TrimEnd | src/main.rs:229 | removes exactly the trailing white space: a prefix of the input, followed only by white space |
| Text.TrimPadded | src/main.rs:229 | trimming white-space padding around a core gives the core back |
| Text.SplitOnce | src/main.rs:446 | None exactly when the separator is absent; otherwise left + separator + right is the input and the left part has no separator |
| Text.SplitOnceAt | src/main.rs:584 | the split happens at the first occurrence of the separator |
| Text.Split | src/main.rs:172 | at least one piece, no piece contains the separator, and joining the pieces with it gives the input |
| Text.SplitJoin | src/main.rs:172 | splitting joined separator-free pieces gives the pieces back |
| Text.SplitCount | src/main.rs:172-174 | the number of fields is the number of tabs plus one |
| Text.SplitLines | src/main.rs:161 | at least one line, no line contains CRLF, and joining the lines with CRLF gives the text |
| Text.SplitLinesJoin | src/main.rs:161 | splitting CRLF-joined CRLF-free lines gives the lines back |
| Text.ParseU16 | src/main.rs:180 | an accepted string is neither empty nor a lone '+', starts with a digit or '+', and is digits after that; `ParseZeroPadded` gives the value or the refusal of every signed or unsigned digit string, and `ParseRejects`/`ParseRejectsEmpty` the refusals of everything else |
| Text.ParseZeroPadded | src/main.rs:180 | any number of leading zeros before a decimal rendering, with or without '+', parses to the number when it is below 65536 and is refused otherwise ("070" and "+070" give 70, "070000" is refused) |
| Text.ShowNat | src/main.rs:180 | the decimal rendering is a non-empty digit string whose value is the number, without leading zeros |
| Text.ParseShow | src/main.rs:180 | a u16 port parses back from its decimal rendering, with or without a leading '+' |
| Text.ParseShowOverflow | src/main.rs:180 | numbers of 65536 or more are refused |
| Text.ParseRejects | src/main.rs:180-185 | any non-digit other than one leading '+' makes the port parse fail |
| Text.ParseRejectsEmpty | src/main.rs:180-185 | the empty string and a lone '+' are refused |
| Listing.Kept | src/main.rs:161-162 | no kept line is "." or empty |
| Listing.KeptAppend | src/main.rs:162 | the filter keeps line order (distributes over concatenation) |
| Listing.DroppedAnywhere | src/main.rs:161-162 | a "." or empty line changes nothing wherever it occurs |
| Listing.ParseLine | src/main.rs:163-195 | a line under 8 bytes is malformed; a parsed element's code is the line's first character and its text fields contain no tab |
| Listing.ParseLineFields | src/main.rs:163-195 | for a line with code c and four tab-free fields: length, type code and port checks in that order decide the error, else the element has display/selector/host from fields 0/1/2 and the parsed port |
| Listing.ParseLineFieldCount | src/main.rs:172-178 | a line with a known code and a tab count other than three is malformed, quoting the line without its code |
| Listing.GetListing | src/main.rs:156-197 | a failed request gives the transport error and an undecodable reply the invalid-UTF-8 error; a loaded listing was received; `LoadsWhenAllParse`, `ParseLines` and `ListingRoundTrip` complete it |
| Listing.LoadsWhenAllParse | src/main.rs:161-196 | a received listing loads exactly when every line other than "." and "" parses, and then gives one element per such line |
| Listing.ParseLines | src/main.rs:163-196 | all or nothing: an error exactly when some line is bad, and then the first bad line's error; otherwise one element per line in line order |
| Listing.ListingRoundTrip | src/main.rs:156-197 | the listing a server sends for a sequence of elements (each line CRLF-terminated, then ".") parses back to exactly those elements |
| Listing.ExampleDirectory | src/main.rs:156-197 | "1Docs\t/d\tsdf.org\t70\r\n.\r\n" parses to one directory with those fields and port 70 |
| Listing.ExampleFailFast | src/main.rs:196 | a good line followed by a line with an unknown code yields that line's error and no element |
| Hosts.ParseHost | src/main.rs:582-598 | the default port 70 is used exactly when the argument has no ':'; a parsed host has no ':' and starts the argument; an error quotes a suffix of the argument that does not parse as u16; `HostOnly` and `HostAndPort` characterise it completely |
| Hosts.HostOnly | src/main.rs:595-597 | without ':' the whole argument is the host, port 70 |
| Hosts.HostAndPort | src/main.rs:583-594 | with ':' the argument is cut at its first ':'; the left part is the host, the right part must parse as u16 or the result is "Invalid port number" quoting it |
| Hosts.SecondColonRejected | src/main.rs:584-593 | an empty port part, or one holding a further ':', is an error |
| Hosts.HostPortRoundTrip | src/main.rs:582-598 | `HOST:PORT` written from a colon-free host and a u16 parses back to that pair |
| Menu.DisplayLabels | src/main.rs:130-144 | the numbering loop gives every element neither informational nor error the label of the count of such elements before it, and no label to the others |
| Menu.SelectableItems | src/main.rs:464-466 | the candidates for selection are non-informational elements of the listing |
| Menu.SelectableItemsAppend | src/main.rs:464-466 | the candidates of a concatenation are the candidates of each part, in order; with `SelectableItemsOne` this fixes the filter: every non-informational element exactly once, in listing order |
| Menu.SelectableItemsOne | src/main.rs:465 | a single element is a candidate exactly when it is not an informational message |
| Menu.Select | src/main.rs:464-468 | an element is found exactly when the ordinal is below the number of candidates (fixed by `SelectableItemsAppend`/`SelectableItemsOne`), and it is a non-informational element of the listing; `SelectableAt` and `LabelPicksItsElement` place it |
| Menu.SelectableAt | src/main.rs:464-468 | a selectable element is picked by the number of selectable elements before it |
| Menu.CountsAgree | src/main.rs:134 | without error elements, display numbering and selection count the same elements |
| Menu.LabelPicksItsElement | src/main.rs:130-144 | in a listing without error elements, typing back the label shown for one of the first 676 labelled elements picks that element |
| Menu.NumberingMismatch | src/main.rs:466 | with an error element before a directory, the directory is shown as "aa" but "aa" picks the error element |
| Menu.ExampleErrorSelection | src/main.rs:464-468 | after an informational line and two error elements, "aa" picks the first error, "ab" the second, and ordinal 2 picks nothing |
| Menu.LabelsDistinct | src/main.rs:130-138 | the first 676 labels shown are pairwise distinct |
| Menu.ParseInput | src/main.rs:444-462 | a pick is always below 676 and a panic comes only from a one-character line; `CommandLines`, `PickLines` and `CrashLines` cover all four outcomes |
| Menu.CommandLines | src/main.rs:445-450 | a line is a command exactly when it starts with '/' or equals "help"; the name runs to the first space, the arguments are the rest or empty; "help" is command "h" |
| Menu.PickLines | src/main.rs:452-462 | a line selects an ordinal exactly when it is two lowercase letters, and the ordinal's label is those letters |
| Menu.CrashLines | src/main.rs:452-457 | the input panics exactly when it is a single character of two bytes |
| Menu.LabelRoundTrip | src/main.rs:135 | typing a shown label (ordinal below 676) selects that ordinal |
| Menu.ExampleSelection | src/main.rs:459-468 | after one informational line and two directories, "aa" picks the first directory and "ab" the second |
| Navigation.Session.UrlItemSkipsFetch | src/main.rs:251-256 | `link` on an HTML item whose display text starts with "URL:" hands the item off with the session unchanged, whatever the network would reply |
| Navigation.Session.constructor | src/main.rs:608-610 | the session starts with history = [initial location], hp = 0, at that location |
| Navigation.Session.Start | src/main.rs:600-611 | no argument is a usage error; a bad HOST[:PORT] or a failed first listing is returned as the error; otherwise a valid session at (host, port, "") |
| Navigation.Session.Reboot | src/main.rs:199-219 | hp and history unchanged; the location becomes history[hp] whether or not the fetch succeeds; elements are replaced only by a successful parse |
| Navigation.Session.Link | src/main.rs:233-353 | directories and mirrors push (server, port, selector) at the end of the history and load it; every other item is fetched first, except an HTML item whose display text starts with `URL:`, and an unreachable server ends the round with the transport error and no change; search servers push selector + tab + query the same way after a successful pre-fetch; kinds with a content or program arm are handed off, and CCSO, error and informational elements end with `Ok`, both without state change; hp stays inside the history, which is never truncated |
| Navigation.Session.Command | src/main.rs:359-432 | b moves back only if hp > 0, f forth only if hp + 1 < len, r reloads history[hp]; s sets host/port and an empty path and loads it without touching history or hp, and changes nothing for an empty or invalid argument; q exits; anything else only prints help |
| Navigation.Session.Getline | src/main.rs:434-473 | the trimmed line is dispatched as a command, a label selecting among non-informational elements, ignored, or a panic, with exactly the effect of the command or link taken |
| Navigation.BackThenForth | src/main.rs:371-382 | going back then forth restores hp and the history and reloads the location recorded at hp |

## Left out

- `query_path` (TCP connect, write, read to end): replaced by the `net` oracle.
  Timeouts and partial reads are not modelled.
- UTF-8 decoding of replies: the oracle hands over decoded text, or `NotUtf8`.
- Terminal output is not modelled. This covers `display_elements`' printing,
  the `Display` impl and its ANSI escapes, the help text, the `s` status line,
  and error messages, which are kept only as `IoError` values. Only the label
  numbering and the trimming of prompt input are modelled.
- The content branches of `link` are handed off (`Outcome.HandedOff`) and never
  touch the session. The CCSO notice is not modelled beyond its `Ok` result. Out of scope: text, downloads, uudecode, images, HTML,
  telnet, CCSO, `is_download`, `print_status`, and every external program they start.
- `mktemp`, `get_fname`, `write_download`, `write_text`: file-system and prompt
  helpers used only by the content branches.
- `try_main`'s read-eval loop and `main`'s exit codes. `Session.Start` models the
  argument handling and the initial state; `Session.Getline` models one round of the loop.
- `q` terminates the process. The model returns `Outcome.Exit` and does not model
  the process exit.
- I/O errors of the prompt itself (flushing stdout, reading stdin) are not modelled.
- Debug-build overflow panics in `n_alpha`'s `u8` addition and in the `u16`
  label counter are not modelled. The model uses release-build wrap-around.
  `hp + 1` cannot overflow in the model, because integers are unbounded.
- `src/config.def.rs`: only `CMD_PREFIX` ('/') is used, as `Menu.CMD_PREFIX`.
  The program names and the download folder belong to the content branches.
