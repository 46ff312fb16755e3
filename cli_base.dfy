/** What the quiet-down CLI commands share (LenientQuietDownCommandBase): the
    transfer of command-line options to the configuration and the printout of
    the configuration. */
module CliBase {
  import opened Substrate
  import opened Messages
  import opened Strings
  import Configuration

  /** The parsed options. None stands for an option that was not given (a null
      String); boolean flags that were not given are false. */
  datatype Options = Options(message: Option<string>, allowAllQueuedItems: bool,
                             allowWhiteListedProjects: bool, whiteListedProjects: Option<string>)

  /** One printed line: a message on stdout, a text on stdout, or a message on
      stderr. */
  datatype Line = Out(msg: Message) | OutText(text: string) | Err(errMsg: Message)

  /** How a command ends: refused by the permission check, or with an exit
      code and what it printed. */
  datatype CommandResult = AccessDenied | Exit(code: int, output: seq<Line>)

  /** Util.fixEmpty: null for null or the empty string, the string otherwise. */
  function FixEmpty(s: Option<string>): (r: Option<string>)
    ensures r.None? <==> s.None? || s.value == ""
    ensures r.Some? ==> r == s
  {
    if s.Some? && s.value != "" then s else None
  }

  /** configure(): the message is stored only when given and non-empty; both
      flags are always overwritten; the whitelist is replaced by the
      ';'-separated pieces when -p is given and left alone otherwise. */
  method Configure(config: Configuration.ShutdownConfiguration, options: Options)
    requires config.Valid()
    modifies config
    ensures config.Valid()
    ensures config.shutdownMessage ==
      if FixEmpty(options.message).Some? then options.message.value else old(config.shutdownMessage)
    ensures config.allowAllQueuedItems == options.allowAllQueuedItems
    ensures config.allowWhiteListedProjects == options.allowWhiteListedProjects
    ensures options.whiteListedProjects.Some? ==>
      Elems(config.whiteListedProjects) == Elems(SplitOnSemicolons(options.whiteListedProjects.value))
    ensures options.whiteListedProjects.None? ==> config.whiteListedProjects == old(config.whiteListedProjects)
  {
    if FixEmpty(options.message).Some? {
      config.SetShutdownMessage(options.message.value);
    }
    config.SetAllowAllQueuedItems(options.allowAllQueuedItems);
    config.SetAllowWhiteListedProjects(options.allowWhiteListedProjects);
    if options.whiteListedProjects.Some? {
      config.ReplaceWhiteListedProjects(SplitOnSemicolons(options.whiteListedProjects.value));
    }
  }

  /** printShutdownConfiguration(): which queued items are allowed, then
      whether whitelisted projects are allowed, followed by the whitelist text
      only when they are. */
  function PrintShutdownConfiguration(config: Configuration.ShutdownConfiguration): (lines: seq<Line>)
    reads config
    ensures |lines| == if config.allowWhiteListedProjects then 3 else 2
    ensures lines[0] == (if config.allowAllQueuedItems then Out(AllQueuedItemsAllowed) else Out(OnlyUpstreamItemsAllowed))
    ensures lines[1] == (if config.allowWhiteListedProjects then Out(WhiteListedProjectsAllowed) else Out(WhiteListedProjectsNotAllowed))
    ensures (exists k :: 0 <= k < |lines| && lines[k].OutText?) <==> config.allowWhiteListedProjects
    ensures config.allowWhiteListedProjects ==> lines[2] == OutText(config.GetWhiteListedProjectsText())
  {
    var queued := if config.allowAllQueuedItems then Out(AllQueuedItemsAllowed) else Out(OnlyUpstreamItemsAllowed);
    if config.allowWhiteListedProjects then
      var lines := [queued, Out(WhiteListedProjectsAllowed), OutText(config.GetWhiteListedProjectsText())];
      assert lines[2].OutText?;
      lines
    else
      [queued, Out(WhiteListedProjectsNotAllowed)]
  }

  /** A ';'-joined list of names without ';', whose last name is not empty,
      splits back into exactly those names. */
  lemma {:induction false} SemicolonListRoundTrip(names: seq<string>)
    requires |names| >= 1 && names[|names| - 1] != ""
    requires forall k | 0 <= k < |names| :: ';' !in names[k]
    ensures SplitOnSemicolons(Join(names, ";")) == names
  {
    var text := Join(names, ";");
    SplitOnCharRawJoin(names, ';');
    assert text != "";
    assert DropTrailingEmpty(names) == names;
  }

  /** The pieces of the -p value used in ToggleLenientQuietDownCommandTest. */
  lemma SplitThreeProjects()
    ensures SplitOnSemicolons("whitelisted;somename;anotherone") == ["whitelisted", "somename", "anotherone"]
  {
    var names := ["whitelisted", "somename", "anotherone"];
    assert Join(names, ";") == "whitelisted;somename;anotherone";
    SemicolonListRoundTrip(names);
  }

  /** The three names in TreeSet order. */
  lemma SortThreeProjects()
    ensures StrictlySorted(["anotherone", "somename", "whitelisted"])
  {
    var sorted := ["anotherone", "somename", "whitelisted"];
    assert Less(sorted[0], sorted[1]) && Less(sorted[1], sorted[2]);
    LessTransitive(sorted[0], sorted[1], sorted[2]);
  }

  /** -p "whitelisted;somename;anotherone" leaves a whitelist of three names,
      in ascending order. */
  lemma ThreeProjectWhiteList()
    ensures FromList(SplitOnSemicolons("whitelisted;somename;anotherone")) == ["anotherone", "somename", "whitelisted"]
  {
    var names := ["whitelisted", "somename", "anotherone"];
    var sorted := ["anotherone", "somename", "whitelisted"];
    SplitThreeProjects();
    SortThreeProjects();
    assert Elems(sorted) == Elems(names);
    SortedUnique(FromList(names), sorted);
  }
}
