/** The console's editor: the URL it reads and writes a data node at, and
    what loading and saving do to the text being edited and to the status
    line. */
module Editor {
  import opened Text
  import opened Json
  import opened Fetch

  /** The same-origin base of the RESTCONF data resources. */
  const RestconfData: string := "/restconf/data"

  /** `s.replace(/\/$/, "")`: at most one trailing slash is removed. */
  function DropTrailingSlash(s: string): (r: string)
    ensures s != [] && s[|s| - 1] == '/' ==> r + "/" == s
    ensures !(s != [] && s[|s| - 1] == '/') ==> r == s
  {
    if s != [] && s[|s| - 1] == '/' then s[..|s| - 1] else s
  }

  /** `s.replace(/^\//, "")`: at most one leading slash is removed. */
  function DropLeadingSlash(s: string): (r: string)
    ensures s != [] && s[0] == '/' ==> "/" + r == s
    ensures !(s != [] && s[0] == '/') ==> r == s
  {
    if s != [] && s[0] == '/' then s[1..] else s
  }

  /** `buildUrl(base, path)`: the base, one slash and the path, where a
      slash ending the base or starting the path is the one slash. */
  function BuildUrl(base: string, path: string): (url: string)
    ensures (base == [] || base[|base| - 1] != '/') && (path == [] || path[0] != '/') ==>
      url == base + "/" + path
    ensures base != [] && base[|base| - 1] == '/' && (path == [] || path[0] != '/') ==>
      url == base + path
    ensures (base == [] || base[|base| - 1] != '/') && path != [] && path[0] == '/' ==>
      url == base + path
    ensures base != [] && base[|base| - 1] == '/' && path != [] && path[0] == '/' ==>
      url == base + path[1..]
  {
    DropTrailingSlash(base) + "/" + DropLeadingSlash(path)
  }

  /** Only one slash is removed on each side: whatever `base` and `path`
      are, one more slash on each gives `base + "/" + path`, so extra
      slashes survive into the URL. */
  lemma BuildUrlRemovesOneSlash(base: string, path: string)
    ensures BuildUrl(base + "/", "/" + path) == base + "/" + path
  {
    assert (base + "/")[..|base + "/"| - 1] == base;
    assert ("/" + path)[1..] == path;
  }

  /** The length of the URL: one separator, less the slashes removed. */
  lemma BuildUrlLength(base: string, path: string)
    ensures |base| + |path| - 1 <= |BuildUrl(base, path)| <= |base| + |path| + 1
  {
  }

  /** A path of the explorer, which starts with a slash, is appended to the
      data base as it is. */
  lemma ExplorerPathUrl(path: string)
    requires path != [] && path[0] == '/'
    ensures BuildUrl(RestconfData, path) == RestconfData + path
  {
  }

  /** `buildUrl(RESTCONF_DATA, "/a/b")`. */
  lemma BuildUrlExample(path: string)
    requires path == "/a/b"
    ensures BuildUrl(RestconfData, path) == "/restconf/data/a/b"
  {
    ExplorerPathUrl(path);
  }

  /** The status line after a failed load. */
  function LoadFailed(message: string): string {
    "Failed to load: " + message
  }

  const SavedSuccessfully: string := "Saved successfully"

  /** The status line after a failed save. */
  function SaveFailed(message: string): string {
    "Save failed: " + message
  }

  /** The success line of a save is no failure line, whatever the message,
      so the status line tells whether the save went through. */
  lemma SaveStatusDistinct(message: string)
    ensures SavedSuccessfully != SaveFailed(message)
  {
    assert SaveFailed(message)[4] == ' ';
  }

  /** The request `save` sends: a PUT of the serialised value to `url`. */
  datatype PutRequest = PutRequest(url: string, body: string)

  /** The state of one mounted editor: the `path` it was given, the text in
      the text area and the status line. `fetch`, `JSON.parse`,
      `JSON.stringify` and `JSON.stringify(_, null, 2)` are not modelled:
      their results come in as arguments. */
  class EditorState {
    var path: string
    var raw: string
    var status: string

    /** A fresh editor for `path`, before its effect runs. */
    constructor (path: string)
      ensures this.path == path && raw == "" && status == ""
    {
      this.path := path;
      raw := "";
      status := "";
    }

    /** `loadPath`: the status line is cleared and the node at `url` is
        fetched; on success the text becomes the pretty-printed value,
        otherwise the text is kept and the status line says why. */
    method LoadPath(outcome: Outcome, pretty: Value -> string) returns (url: string)
      modifies this
      ensures url == BuildUrl(RestconfData, path) && path == old(path)
      ensures JsonOf(outcome).Success? ==> raw == pretty(JsonOf(outcome).value) && status == ""
      ensures JsonOf(outcome).Failure? ==> raw == old(raw) && status == LoadFailed(JsonOf(outcome).message)
    {
      status := "";
      url := BuildUrl(RestconfData, path);
      var json := JsonOf(outcome);
      match json
      case Success(v) =>
        raw := pretty(v);
      case Failure(m) =>
        status := LoadFailed(m);
    }

    /** The effect on `[path]`: the editor is given `p`, and the node is
        loaded only when `p` is not empty; `fetched` is the URL loaded. */
    method PathChanged(p: string, outcome: Outcome, pretty: Value -> string) returns (fetched: Option<string>)
      modifies this
      ensures path == p
      ensures p == "" ==> fetched == None && raw == old(raw) && status == old(status)
      ensures p != "" ==> fetched == Some(BuildUrl(RestconfData, p))
      ensures p != "" && JsonOf(outcome).Success? ==> raw == pretty(JsonOf(outcome).value) && status == ""
      ensures p != "" && JsonOf(outcome).Failure? ==>
        raw == old(raw) && status == LoadFailed(JsonOf(outcome).message)
    {
      path := p;
      if p != "" {
        var url := LoadPath(outcome, pretty);
        fetched := Some(url);
      } else {
        fetched := None;
      }
    }

    /** Typing in the text area replaces the text and nothing else. */
    method Edit(text: string)
      modifies this
      ensures raw == text && status == old(status) && path == old(path)
    {
      raw := text;
    }

    /** `save`: the text is parsed; if it parses, the value is serialised
        and PUT to the node's URL, and the status line reports the
        response. The text itself is never changed. */
    method Save(parse: string -> Parsed, stringify: Value -> string, outcome: Outcome)
      returns (sent: Option<PutRequest>)
      modifies this
      ensures raw == old(raw) && path == old(path)
      ensures parse(raw).SyntaxError? ==> sent == None && status == SaveFailed(parse(raw).message)
      ensures parse(raw).Parsed? ==>
        sent == Some(PutRequest(BuildUrl(RestconfData, path), stringify(parse(raw).value)))
      ensures parse(raw).Parsed? && StatusError(outcome) == None ==> status == SavedSuccessfully
      ensures parse(raw).Parsed? && StatusError(outcome).Some? ==>
        status == SaveFailed(StatusError(outcome).value)
    {
      status := "";
      var payload := parse(raw);
      match payload
      case SyntaxError(m) =>
        status := SaveFailed(m);
        sent := None;
      case Parsed(v) =>
        var url := BuildUrl(RestconfData, path);
        sent := Some(PutRequest(url, stringify(v)));
        var error := StatusError(outcome);
        match error
        case None =>
          status := SavedSuccessfully;
        case Some(m) =>
          status := SaveFailed(m);
    }
  }
}
