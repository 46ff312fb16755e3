/** The plugin's global configuration (ShutdownConfiguration). */
module Configuration {
  import opened Strings

  class ShutdownConfiguration {
    /** The message shown in the page header during a lenient shutdown. */
    var shutdownMessage: string
    var allowAllQueuedItems: bool
    var allowWhiteListedProjects: bool
    /** The whitelist, a TreeSet<String>: ascending, without duplicates. */
    var whiteListedProjects: seq<string>

    predicate Valid()
      reads this
    {
      StrictlySorted(whiteListedProjects)
    }

    /** A fresh configuration. defaultMessage is the localised text of
        Messages.GoingToShutDown(); what load() reads from disk is not modelled. */
    constructor(defaultMessage: string)
      ensures Valid()
      ensures shutdownMessage == defaultMessage
      ensures !allowAllQueuedItems && !allowWhiteListedProjects
      ensures whiteListedProjects == []
    {
      shutdownMessage := defaultMessage;
      allowAllQueuedItems := false;
      allowWhiteListedProjects := false;
      whiteListedProjects := [];
    }

    method SetAllowAllQueuedItems(allow: bool)
      modifies this`allowAllQueuedItems
      ensures allowAllQueuedItems == allow
    {
      allowAllQueuedItems := allow;
    }

    method SetAllowWhiteListedProjects(allow: bool)
      modifies this`allowWhiteListedProjects
      ensures allowWhiteListedProjects == allow
    {
      allowWhiteListedProjects := allow;
    }

    method SetShutdownMessage(message: string)
      modifies this`shutdownMessage
      ensures shutdownMessage == message
    {
      shutdownMessage := message;
    }

    /** whiteListedProjects.clear() followed by addAll(names): the whitelist
        becomes the names of the list, ascending, whatever it held before. */
    method ReplaceWhiteListedProjects(names: seq<string>)
      modifies this`whiteListedProjects
      ensures Valid()
      ensures Elems(whiteListedProjects) == Elems(names)
    {
      whiteListedProjects := [];
      var i := 0;
      while i < |names|
        invariant 0 <= i <= |names|
        invariant StrictlySorted(whiteListedProjects)
        invariant Elems(whiteListedProjects) == Elems(names[..i])
      {
        InsertSorted(whiteListedProjects, names[i]);
        assert Elems(names[..i + 1]) == Elems(names[..i]) + {names[i]} by {
          assert names[..i + 1] == names[..i] + [names[i]];
        }
        whiteListedProjects := Insert(whiteListedProjects, names[i]);
        i := i + 1;
      }
      assert names[..i] == names;
    }

    /** StringUtils.join(whiteListedProjects, "\n"), the text the configuration
        page shows: saved back through Configure it reproduces the whitelist
        when the whitelist is not empty and no name holds a line break. */
    function GetWhiteListedProjectsText(): (text: string)
      reads this
      ensures whiteListedProjects == [] ==> text == ""
      ensures Valid() && whiteListedProjects != [] &&
              (forall k | 0 <= k < |whiteListedProjects| :: NoLineBreak(whiteListedProjects[k])) ==>
              FromList(SplitOnLineBreaks(text)) == whiteListedProjects
    {
      if Valid() && whiteListedProjects != [] &&
         (forall k | 0 <= k < |whiteListedProjects| :: NoLineBreak(whiteListedProjects[k]))
      then
        WhiteListTextRoundTrip(whiteListedProjects);
        Join(whiteListedProjects, "\n")
      else
        Join(whiteListedProjects, "\n")
    }

    function IsWhiteListedProject(name: string): (r: bool)
      reads this
      ensures r <==> allowWhiteListedProjects && name in Elems(whiteListedProjects)
      ensures !allowWhiteListedProjects ==> !r
    {
      allowWhiteListedProjects && name in whiteListedProjects
    }

    /** The global configuration form: the message and both flags are taken
        as given, the whitelist is replaced by the lines of the text, and the
        result is always true. Saving to disk is not modelled. */
    method Configure(message: string, allowAll: bool, allowWhiteListed: bool, whiteListedText: string)
      returns (ok: bool)
      modifies this
      ensures ok
      ensures Valid()
      ensures shutdownMessage == message
      ensures allowAllQueuedItems == allowAll && allowWhiteListedProjects == allowWhiteListed
      ensures Elems(whiteListedProjects) == Elems(SplitOnLineBreaks(whiteListedText))
    {
      shutdownMessage := message;
      allowAllQueuedItems := allowAll;
      allowWhiteListedProjects := allowWhiteListed;
      ReplaceWhiteListedProjects(SplitOnLineBreaks(whiteListedText));
      ok := true;
    }
  }

  /** In a strictly sorted list of at least two names, the last is not the
      empty string, which sorts before every other name. */
  lemma LastNotEmpty(w: seq<string>)
    requires StrictlySorted(w) && |w| >= 2
    ensures w[|w| - 1] != ""
  {
    assert Less(w[0], w[|w| - 1]);
  }

  /** Saving the text the configuration page shows reproduces the whitelist,
      provided it is not empty and no name contains a line break. */
  lemma {:induction false} WhiteListTextRoundTrip(w: seq<string>)
    requires StrictlySorted(w) && w != []
    requires forall k | 0 <= k < |w| :: NoLineBreak(w[k])
    ensures FromList(SplitOnLineBreaks(Join(w, "\n"))) == w
  {
    var text := Join(w, "\n");
    if text == "" {
      assert |w| == 1;
      assert SplitOnLineBreaks(text) == [""] == w;
      assert Elems([""]) == {""};
      SortedUnique(FromList([""]), w);
    } else {
      SplitLinesRawJoin(w);
      if |w| >= 2 {
        LastNotEmpty(w);
      }
      assert DropTrailingEmpty(w) == w;
      SortedUnique(FromList(w), w);
    }
  }

  /** An empty whitelist does not survive the round trip: splitting the empty
      text yields one empty name. */
  lemma EmptyWhiteListRoundTrip()
    ensures FromList(SplitOnLineBreaks(Join([], "\n"))) == [""]
  {
    assert SplitOnLineBreaks("") == [""];
    assert Elems([""]) == {""};
    assert StrictlySorted([""]);
    SortedUnique(FromList([""]), [""]);
  }
}
