/** The navigation session of the client: the current location
    (`host`, `port`, `path`), the visited locations (`history`) with the
    position in them (`hp`), and the elements of the last listing loaded.
    Every network request goes to an oracle, `net`, that gives the server's
    reply to a request. */
module Navigation {
  import opened Wrappers
  import opened Text
  import opened Items
  import opened Listing
  import opened Hosts
  import opened Menu

  /** A history entry `(server, port, selector)`. */
  datatype Location = Location(host: string, port: u16, selector: string)

  /** The reply the server gives to each request. */
  type Network = Location -> Reply

  /** How one round of the read-eval loop ends. */
  datatype Outcome =
    | Done                        // `Ok(())`
    | Failed(error: IoError)      // `Err(e)`: printed, then the loop goes on
    | HandedOff(item: FsElement)  // given to a file, download, telnet or viewer branch
    | Exit                        // `q`: the process exits with status 0
    | Panic                       // the process aborts

  /** `link` fetches every non-directory item before dispatching on its kind,
      except an HTML item whose display text starts with "URL:". */
  predicate PreFetched(e: FsElement)
  {
    !(e.eltType == HTMLFile && "URL:" <= e.content)
  }

  /** The kinds whose arm in `link` goes on to use the fetched content or
      start a program. A CCSO server only prints a notice, and error and
      informational elements have no arm; those end the round with `Ok`. */
  predicate HasHandler(t: EltType)
  {
    t !in {CCSONameServer, Error, InformationalMessage, Directory,
           MirrorServer, FullTextSearchServer}
  }

  function ItemLocation(e: FsElement): Location
  {
    Location(e.server, e.port, e.link)
  }

  class Session {
    var host: string
    var port: u16
    var path: string
    var history: seq<Location>
    var hp: nat
    var elements: seq<FsElement>

    /** `reboot` asserts that the position is inside the history. */
    ghost predicate Valid()
      reads this
    {
      hp < |history|
    }

    function Current(): Location
      reads this
    {
      Location(host, port, path)
    }

    /** The elements after fetching `loc`: replaced by the parsed listing, or
        kept as they were when the fetch or the parse fails. */
    ghost predicate Refreshed(loc: Location, net: Network, before: seq<FsElement>, r: Outcome)
      reads this
    {
      match GetListing(net(loc))
      case Ok(items) => elements == items && r == Done
      case Err(e) => elements == before && r == Failed(e)
    }

    twostate predicate Unchanged()
      reads this
    {
      && host == old(host) && port == old(port) && path == old(path)
      && history == old(history) && hp == old(hp) && elements == old(elements)
    }

    /** `reboot` at the (possibly moved) position: the location is copied
        from the history before the fetch, whether or not the fetch works. */
    twostate predicate Rebooted(net: Network, r: Outcome)
      reads this
    {
      && history == old(history) && hp < |history|
      && Current() == history[hp]
      && Refreshed(history[hp], net, old(elements), r)
    }

    /** A visit: `loc` is pushed at the end of the history, even when the
        position was not at the end, and loaded. */
    twostate predicate Visited(loc: Location, net: Network, r: Outcome)
      reads this
    {
      && history == old(history) + [loc] && hp == |history| - 1
      && Current() == loc
      && Refreshed(loc, net, old(elements), r)
    }

    /** What `link` does with the element `e`; `search` is what the user
        typed at the search prompt. */
    twostate predicate LinkEffect(e: FsElement, net: Network, search: string, r: Outcome)
      reads this
    {
      if e.eltType == Directory || e.eltType == MirrorServer then
        Visited(ItemLocation(e), net, r)
      else if PreFetched(e) && net(ItemLocation(e)).Unreachable? then
        Unchanged() && r == Failed(Transport)
      else if e.eltType == FullTextSearchServer then
        Visited(Location(e.server, e.port, e.link + [TAB] + Trim(search)), net, r)
      else if HasHandler(e.eltType) then
        Unchanged() && r == HandedOff(e)
      else
        Unchanged() && r == Done
    }

    /** An HTML item whose display text starts with "URL:" is handed to the
        browser without a request, so no reply of the network matters. */
    twostate lemma UrlItemSkipsFetch(e: FsElement, net: Network, search: string, r: Outcome)
      requires e.eltType == HTMLFile && "URL:" <= e.content
      requires LinkEffect(e, net, search, r)
      ensures Unchanged() && r == HandedOff(e)
    {
      assert e.content[..4] == "URL:";
    }

    /** What `command` does for the command `name` with arguments `args`. */
    twostate predicate CommandEffect(name: string, args: string, net: Network, r: Outcome)
      reads this
    {
      if name == "b" then
        if old(hp) > 0 then hp == old(hp) - 1 && Rebooted(net, r)
        else Unchanged() && r == Done
      else if name == "f" then
        if old(hp) + 1 < |old(history)| then hp == old(hp) + 1 && Rebooted(net, r)
        else Unchanged() && r == Done
      else if name == "r" then
        hp == old(hp) && Rebooted(net, r)
      else if name == "s" then
        if args == [] then Unchanged() && r == Done
        else
          match ParseHost(args)
          case Err(_) => Unchanged() && r == Done
          case Ok(target) =>
            && history == old(history) && hp == old(hp)
            && Current() == Location(target.0, target.1, "")
            && Refreshed(Current(), net, old(elements), r)
      else if name == "q" then
        Unchanged() && r == Exit
      else
        Unchanged() && r == Done
    }

    /** What `getline` does with the raw input line `input`. */
    twostate predicate GetlineEffect(input: string, net: Network, search: string, r: Outcome)
      reads this
    {
      match ParseInput(Trim(input))
      case Cmd(name, args) => CommandEffect(name, args, net, r)
      case Pick(id) =>
        (match Select(old(elements), id)
         case Some(e) => LinkEffect(e, net, search, r)
         case None => Unchanged() && r == Done)
      case Ignore => Unchanged() && r == Done
      case Crash => Unchanged() && r == Panic
    }

    /** The state `try_main` sets up once the first listing has loaded. */
    constructor (start: Location, items: seq<FsElement>)
      requires start.selector == ""
      ensures Valid()
      ensures history == [start] && hp == 0 && Current() == start && elements == items
    {
      host, port, path := start.host, start.port, start.selector;
      history := [start];
      hp := 0;
      elements := items;
    }

    /** `try_main` up to the loop: `arg` is the first command-line argument. */
    static method Start(arg: Option<string>, net: Network) returns (r: Result<Session, IoError>)
      ensures arg.None? ==> r == Err(Usage)
      ensures arg.Some? && ParseHost(arg.value).Err? ==> r == Err(ParseHost(arg.value).error)
      ensures arg.Some? && ParseHost(arg.value).Ok? ==>
        var start := Location(ParseHost(arg.value).value.0, ParseHost(arg.value).value.1, "");
        match GetListing(net(start))
        case Err(e) => r == Err(e)
        case Ok(items) =>
          && r.Ok? && fresh(r.value) && r.value.Valid()
          && r.value.history == [start] && r.value.hp == 0
          && r.value.Current() == start && r.value.elements == items
    {
      if arg.None? {
        return Err(Usage);
      }
      match ParseHost(arg.value)
      case Err(e) =>
        r := Err(e);
      case Ok(target) =>
        var start := Location(target.0, target.1, "");
        match GetListing(net(start))
        case Err(e) =>
          r := Err(e);
        case Ok(items) =>
          var s := new Session(start, items);
          r := Ok(s);
    }

    /** `reboot`: go to the location at the current history position. */
    method Reboot(net: Network) returns (r: Outcome)
      requires Valid()
      modifies this
      ensures Valid() && hp == old(hp)
      ensures Rebooted(net, r)
    {
      var page := history[hp];
      host, port, path := page.host, page.port, page.selector;
      match GetListing(net(Current()))
      case Ok(items) =>
        elements := items;
        r := Done;
      case Err(e) =>
        r := Failed(e);
    }

    /** `link`: follow the element `e` the user picked. */
    method Link(e: FsElement, net: Network, search: string) returns (r: Outcome)
      requires Valid()
      modifies this
      ensures Valid() && old(history) <= history
      ensures LinkEffect(e, net, search, r)
    {
      if e.eltType == Directory || e.eltType == MirrorServer {
        history := history + [ItemLocation(e)];
        hp := |history| - 1;
        r := Reboot(net);
        return;
      }
      if PreFetched(e) && net(ItemLocation(e)).Unreachable? {
        return Failed(Transport);
      }
      if e.eltType == FullTextSearchServer {
        var query := Trim(search);
        history := history + [Location(e.server, e.port, e.link + [TAB] + query)];
        hp := |history| - 1;
        r := Reboot(net);
      } else if HasHandler(e.eltType) {
        r := HandedOff(e);
      } else {
        r := Done;
      }
    }

    /** `command`: back, forth, reload, set server, quit, or help. */
    method Command(name: string, args: string, net: Network) returns (r: Outcome)
      requires Valid()
      modifies this
      ensures Valid() && history == old(history)
      ensures CommandEffect(name, args, net, r)
    {
      if name == "b" {
        if hp > 0 {
          hp := hp - 1;
          r := Reboot(net);
        } else {
          r := Done;
        }
      } else if name == "f" {
        if hp + 1 < |history| {
          hp := hp + 1;
          r := Reboot(net);
        } else {
          r := Done;
        }
      } else if name == "r" {
        r := Reboot(net);
      } else if name == "s" {
        if args == [] {
          r := Done;
        } else {
          match ParseHost(args)
          case Err(_) =>
            r := Done;
          case Ok(target) =>
            host, port, path := target.0, target.1, "";
            match GetListing(net(Current()))
            case Ok(items) =>
              elements := items;
              r := Done;
            case Err(e) =>
              r := Failed(e);
        }
      } else if name == "q" {
        r := Exit;
      } else {
        r := Done;
      }
    }

    /** `getline`: one round of the loop, on the line the user typed. */
    method Getline(input: string, net: Network, search: string) returns (r: Outcome)
      requires Valid()
      modifies this
      ensures Valid() && old(history) <= history
      ensures GetlineEffect(input, net, search, r)
    {
      var line := Trim(input);
      match ParseInput(line)
      case Cmd(name, args) =>
        r := Command(name, args, net);
      case Pick(id) =>
        match Select(elements, id) {
          case Some(e) =>
            r := Link(e, net, search);
          case None =>
            r := Done;
        }
      case Ignore =>
        r := Done;
      case Crash =>
        r := Panic;
    }
  }

  /** Going back and then forth returns to the same history position and
      reloads the location recorded there. */
  method BackThenForth(s: Session, net: Network) returns (back: Outcome, forth: Outcome)
    requires s.Valid() && s.hp > 0
    modifies s
    ensures s.Valid() && s.history == old(s.history) && s.hp == old(s.hp)
    ensures s.Current() == s.history[s.hp]
  {
    back := s.Command("b", "", net);
    forth := s.Command("f", "", net);
  }
}
