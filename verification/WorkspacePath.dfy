/** The plugin and workspace segments in front of a proxied path (pkg/proxy/proxy.go). */
module WorkspacePath {
  import opened Text
  import opened Space
  import opened HttpRequest

  const PLUGINS: string := "/plugins/"
  const WORKSPACES: string := "/workspaces/"

  datatype PathError = NotProxiedRoute | TooFewSegments

  /** A parsed path: plugin and workspace name, "" when not given, and the path to forward. */
  datatype Context = Context(plugin: string, workspace: string, path: string)

  predicate Blank(name: string) {
    TrimSpace(name) == ""
  }

  /** The text up to the next slash. */
  function Segment(tail: string): (name: string)
    ensures HasPrefix(tail, name) && Without(name, '/')
    ensures |name| < |tail| ==> tail[|name|] == '/'
  {
    if tail == "" || tail[0] == '/' then "" else [tail[0]] + Segment(tail[1..])
  }

  function AfterSegment(tail: string): (rest: string)
    ensures tail == Segment(tail) + rest
    ensures rest == "" || rest[0] == '/'
  {
    tail[|Segment(tail)|..]
  }

  function PluginStage(path: string): Result<Context, PathError> {
    if !HasPrefix(path, PLUGINS) then Ok(Context("", "", path))
    else
      var tail := path[|PLUGINS|..];
      if AfterSegment(tail) == "" && Blank(Segment(tail)) then Err(NotProxiedRoute)
      else Ok(Context(Segment(tail), "", AfterSegment(tail)))
  }

  function WorkspaceStage(c: Context): Result<Context, PathError> {
    if !HasPrefix(c.path, WORKSPACES) then Ok(c)
    else
      var tail := c.path[|WORKSPACES|..];
      if AfterSegment(tail) == "" && (c.plugin == "" || Blank(Segment(tail))) then Err(TooFewSegments)
      else Ok(Context(c.plugin, Segment(tail), AfterSegment(tail)))
  }

  function Parsed(path: string): Result<Context, PathError> {
    var c := PluginStage(path);
    if c.Err? then c else WorkspaceStage(c.value)
  }

  // ----- the segments of a split path -----

  lemma {:induction false} SplitHead(tail: string)
    ensures Split(tail, '/')[0] == Segment(tail)
    ensures |Split(tail, '/')| == 1 <==> AfterSegment(tail) == ""
  {
    if tail != "" && tail[0] != '/' {
      SplitHead(tail[1..]);
      assert tail[|Segment(tail)|..] == tail[1..][|Segment(tail[1..])|..];
    }
  }

  /** A path that starts with `/word/` splits into at least three segments, the second being `word`. */
  lemma SplitAtMarker(path: string, word: string)
    requires Without(word, '/') && HasPrefix(path, "/" + word + "/")
    ensures var tail := path[|word| + 2..];
            && Split(path, '/') == ["", word] + Split(tail, '/')
            && |Split(path, '/')| >= 3
            && Split(path, '/')[1] == word
            && Split(path, '/')[2] == Segment(tail)
            && (|Split(path, '/')| == 3 <==> AfterSegment(tail) == "")
            && TrimPrefix(path, "/" + word + "/" + Segment(tail)) == AfterSegment(tail)
  {
    var tail := path[|word| + 2..];
    PrefixSplits(path, "/" + word + "/");
    SplitMarked(word, tail);
    SplitHead(tail);
    assert path == ("/" + word + "/" + Segment(tail)) + AfterSegment(tail);
    TrimAppended("/" + word + "/" + Segment(tail), AfterSegment(tail));
  }

  lemma {:induction false} SplitMarked(word: string, tail: string)
    requires Without(word, '/')
    ensures Split("/" + word + "/" + tail, '/') == ["", word] + Split(tail, '/')
  {
    var behind := word + ['/'] + tail;
    assert "/" + word + "/" + tail == "" + ['/'] + behind;
    SplitAppend("", behind, '/');
    SplitAppend(word, tail, '/');
  }

  lemma TrimAppended(prefix: string, rest: string)
    ensures HasPrefix(prefix + rest, prefix) && TrimPrefix(prefix + rest, prefix) == rest
  {
  }

  lemma {:induction false} PluginStageBySegments(path: string)
    requires HasPrefix(path, PLUGINS)
    ensures var segments := Split(path, '/');
            |segments| >= 3 &&
            PluginStage(path) == if |segments| == 3 && Blank(segments[2]) then Err(NotProxiedRoute)
                                 else var consumed := "/" + segments[1] + "/" + segments[2];
                                      Ok(Context(segments[2], "", TrimPrefix(path, consumed)))
  {
    assert PLUGINS == "/" + "plugins" + "/";
    SplitAtMarker(path, "plugins");
  }

  lemma WorkspaceStageBySegments(c: Context)
    requires HasPrefix(c.path, WORKSPACES)
    ensures var segments := Split(c.path, '/');
            |segments| >= 3 &&
            WorkspaceStage(c) == if |segments| == 3 && (c.plugin == "" || Blank(segments[2])) then Err(TooFewSegments)
                                 else Ok(Context(c.plugin, segments[2], TrimPrefix(c.path, WORKSPACES + segments[2])))
  {
    assert WORKSPACES == "/" + "workspaces" + "/";
    SplitAtMarker(c.path, "workspaces");
  }

  /** Reads the context off the path and rewrites the path to what is to be forwarded. The source
      also tests for fewer than three segments; behind a marker there are always three. On an error in
      the second stage the path has already lost the plugin. */
  method GetWorkspaceContext(req: Request) returns (r: Result<(string, string), PathError>)
    modifies req`path
    ensures var c := Parsed(old(req.path));
            match c
            case Ok(c) => r == Ok((c.plugin, c.workspace)) && req.path == c.path
            case Err(e) =>
              && r == Err(e)
              && req.path == match PluginStage(old(req.path))
                             case Ok(behind) => behind.path
                             case Err(_) => old(req.path)
  {
    var path := req.path;
    var proxyPluginName := "";
    if HasPrefix(path, PLUGINS) {
      var segments := Split(path, '/');
      PluginStageBySegments(path);
      if |segments| == 3 {
        if |TrimSpace(segments[2])| == 0 {
          return Err(NotProxiedRoute);
        }
      }
      proxyPluginName := segments[2];
      req.path := TrimPrefix(path, "/" + segments[1] + "/" + segments[2]);
      path := req.path;
    }
    assert PluginStage(old(req.path)) == Ok(Context(proxyPluginName, "", path));
    var workspace := "";
    if HasPrefix(path, WORKSPACES) {
      var segments := Split(path, '/');
      WorkspaceStageBySegments(Context(proxyPluginName, "", path));
      if |segments| < 4 && |proxyPluginName| == 0 {
        return Err(TooFewSegments);
      }
      if |segments| == 3 {
        if |TrimSpace(segments[2])| == 0 {
          return Err(TooFewSegments);
        }
      }
      workspace := segments[2];
      req.path := TrimPrefix(req.path, WORKSPACES + workspace);
    }
    return Ok((proxyPluginName, workspace));
  }

  // ----- parser and printer -----

  function Marked(marker: string, name: Option<string>): string {
    if name.None? then "" else marker + name.value
  }

  function Printed(plugin: Option<string>, workspace: Option<string>, rest: string): string {
    Marked(PLUGINS, plugin) + Marked(WORKSPACES, workspace) + rest
  }

  lemma {:induction false} MarkedPath(marker: string, word: string, name: string, rest: string)
    requires marker == "/" + word + "/"
    requires Without(name, '/') && (rest == "" || rest[0] == '/')
    ensures var path := marker + name + rest;
            && HasPrefix(path, marker)
            && path[|marker|..] == name + rest
            && Segment(name + rest) == name && AfterSegment(name + rest) == rest
  {
    var path := marker + name + rest;
    assert path[..|marker|] == marker && path[|marker|..] == name + rest;
    SegmentOf(name, rest);
  }

  lemma {:induction false} SegmentOf(name: string, rest: string)
    requires Without(name, '/') && (rest == "" || rest[0] == '/')
    ensures Segment(name + rest) == name && AfterSegment(name + rest) == rest
  {
    if name != "" {
      assert (name + rest)[1..] == name[1..] + rest;
      SegmentOf(name[1..], rest);
    } else {
      assert name + rest == rest;
    }
  }

  lemma MarkersDiffer(path: string)
    ensures !(HasPrefix(path, WORKSPACES) && HasPrefix(path, PLUGINS))
  {
    assert WORKSPACES[1] == 'w' && PLUGINS[1] == 'p';
    assert HasPrefix(path, WORKSPACES) ==> path[1] == path[..|WORKSPACES|][1];
    assert HasPrefix(path, PLUGINS) ==> path[1] == path[..|PLUGINS|][1];
  }

  lemma PluginStagePrinted(path: string)
    requires PluginStage(path).Ok?
    ensures var c := PluginStage(path).value;
            && (HasPrefix(path, PLUGINS) ==>
                  path == PLUGINS + c.plugin + c.path && (c.path == "" || c.path[0] == '/'))
            && (!HasPrefix(path, PLUGINS) ==> c.plugin == "" && c.path == path)
            && Without(c.plugin, '/') && c.workspace == ""
  {
    if HasPrefix(path, PLUGINS) {
      PrefixSplits(path, PLUGINS);
    }
  }

  lemma WorkspaceStagePrinted(c: Context)
    requires WorkspaceStage(c).Ok? && c.workspace == ""
    ensures var d := WorkspaceStage(c).value;
            && (HasPrefix(c.path, WORKSPACES) ==>
                  c.path == WORKSPACES + d.workspace + d.path && (d.path == "" || d.path[0] == '/'))
            && (!HasPrefix(c.path, WORKSPACES) ==> d == c)
            && Without(d.workspace, '/') && d.plugin == c.plugin
  {
    if HasPrefix(c.path, WORKSPACES) {
      PrefixSplits(c.path, WORKSPACES);
    }
  }

  /** Printing what was parsed gives the path back, and the names hold no slash. */
  lemma PrintOfParse(path: string)
    requires Parsed(path).Ok?
    ensures var c := Parsed(path).value;
            && Without(c.plugin, '/') && Without(c.workspace, '/')
            && (exists plugin, workspace |
                  plugin in {None, Some(c.plugin)} && workspace in {None, Some(c.workspace)} ::
                  && path == Printed(plugin, workspace, c.path)
                  && (plugin.None? ==> c.plugin == "") && (workspace.None? ==> c.workspace == "")
                  && (plugin.Some? || workspace.Some? ==> c.path == "" || c.path[0] == '/'))
  {
    var c := Parsed(path).value;
    var stage := PluginStage(path).value;
    PluginStagePrinted(path);
    WorkspaceStagePrinted(stage);
    var plugin := if HasPrefix(path, PLUGINS) then Some(c.plugin) else None;
    var workspace := if HasPrefix(stage.path, WORKSPACES) then Some(c.workspace) else None;
    assert stage.path == Marked(WORKSPACES, workspace) + c.path by {
      Regroup(stage.path, "", "");
    }
    assert path == Marked(PLUGINS, plugin) + stage.path by {
      Regroup(path, "", "");
    }
    Regroup(Marked(PLUGINS, plugin), Marked(WORKSPACES, workspace), c.path);
    assert path == Printed(plugin, workspace, c.path);
  }

  /** With both names found the original path is the two markers, the two names and the new path. */
  lemma ParsedNamesStandInThePath(path: string)
    requires Parsed(path).Ok?
    ensures var c := Parsed(path).value;
            c.plugin != "" && c.workspace != "" ==>
              path == PLUGINS + c.plugin + WORKSPACES + c.workspace + c.path
  {
    var c := Parsed(path).value;
    PluginStagePrinted(path);
    WorkspaceStagePrinted(PluginStage(path).value);
    if c.plugin != "" && c.workspace != "" {
      var mid := WORKSPACES + c.workspace + c.path;
      assert path == PLUGINS + c.plugin + mid;
      assert PLUGINS + c.plugin + mid == PLUGINS + c.plugin + WORKSPACES + c.workspace + c.path;
    }
  }

  lemma PluginStageOf(plugin: string, tail: string)
    requires Without(plugin, '/') && tail != "" && tail[0] == '/'
    ensures PluginStage(PLUGINS + plugin + tail) == Ok(Context(plugin, "", tail))
  {
    MarkedPath(PLUGINS, "plugins", plugin, tail);
  }

  lemma WorkspaceStageOf(plugin: string, workspace: string, rest: string)
    requires Without(workspace, '/') && (rest == "" || rest[0] == '/')
    ensures WorkspaceStage(Context(plugin, "", WORKSPACES + workspace + rest))
         == if rest == "" && (plugin == "" || Blank(workspace)) then Err(TooFewSegments)
            else Ok(Context(plugin, workspace, rest))
  {
    MarkedPath(WORKSPACES, "workspaces", workspace, rest);
  }

  /** Parsing a printed path with both names returns them, and fails exactly when nothing follows and
      a name the parser insists on is missing. */
  lemma ParseOfBoth(plugin: string, workspace: string, rest: string)
    requires Without(plugin, '/') && Without(workspace, '/') && (rest == "" || rest[0] == '/')
    ensures Parsed(Printed(Some(plugin), Some(workspace), rest))
         == if rest == "" && (plugin == "" || Blank(workspace)) then Err(TooFewSegments)
            else Ok(Context(plugin, workspace, rest))
  {
    var tail := WORKSPACES + workspace + rest;
    assert Printed(Some(plugin), Some(workspace), rest) == PLUGINS + plugin + tail;
    PluginStageOf(plugin, tail);
    WorkspaceStageOf(plugin, workspace, rest);
  }

  lemma ParseOfPlugin(plugin: string, rest: string)
    requires Without(plugin, '/') && (rest == "" || rest[0] == '/') && !HasPrefix(rest, WORKSPACES)
    ensures Parsed(Printed(Some(plugin), None, rest))
         == if rest == "" && Blank(plugin) then Err(NotProxiedRoute) else Ok(Context(plugin, "", rest))
  {
    assert Printed(Some(plugin), None, rest) == PLUGINS + plugin + rest;
    MarkedPath(PLUGINS, "plugins", plugin, rest);
  }

  /** Without a plugin something must follow the workspace name. */
  lemma ParseOfWorkspace(workspace: string, rest: string)
    requires Without(workspace, '/') && (rest == "" || rest[0] == '/')
    ensures Parsed(Printed(None, Some(workspace), rest))
         == if rest == "" then Err(TooFewSegments) else Ok(Context("", workspace, rest))
  {
    assert Printed(None, Some(workspace), rest) == WORKSPACES + workspace + rest;
    MarkedPath(WORKSPACES, "workspaces", workspace, rest);
    MarkersDiffer(WORKSPACES + workspace + rest);
  }

  predicate Refusable(path: string, p: string, w: string) {
    || (path == Printed(Some(p), None, "") && Blank(p))
    || path == Printed(None, Some(w), "")
    || (path == Printed(Some(p), Some(w), "") && (p == "" || Blank(w)))
  }

  lemma RefusedIsRefusable(path: string) returns (p: string, w: string)
    requires Parsed(path).Err?
    ensures Without(p, '/') && Without(w, '/') && Refusable(path, p, w)
  {
    p, w := "", "";
    if PluginStage(path).Err? {
      p := Segment(path[|PLUGINS|..]);
      PrefixSplits(path, PLUGINS);
      assert Printed(Some(p), None, "") == PLUGINS + p;
    } else {
      PluginStagePrinted(path);
      var stage := PluginStage(path).value;
      w := Segment(stage.path[|WORKSPACES|..]);
      PrefixSplits(stage.path, WORKSPACES);
      assert stage.path == WORKSPACES + w;
      if HasPrefix(path, PLUGINS) {
        p := stage.plugin;
        assert Printed(Some(p), Some(w), "") == PLUGINS + p + stage.path;
      } else {
        assert Printed(None, Some(w), "") == stage.path;
      }
    }
  }

  /** A path is refused exactly when it is a blank plugin name with nothing behind it, a workspace
      with nothing behind it, or both names with nothing behind them and one of them missing. */
  lemma RefusedExactly(path: string)
    ensures Parsed(path).Err? <==> exists p, w :: Without(p, '/') && Without(w, '/') && Refusable(path, p, w)
  {
    if Parsed(path).Err? {
      var p, w := RefusedIsRefusable(path);
    }
    if p, w :| Without(p, '/') && Without(w, '/') && Refusable(path, p, w) {
      if path == Printed(Some(p), None, "") && Blank(p) {
        ParseOfPlugin(p, "");
      } else if path == Printed(None, Some(w), "") {
        ParseOfWorkspace(w, "");
      } else {
        ParseOfBoth(p, w, "");
      }
    }
  }
}
