/** The two configuration expressions of `main.py`: the proxy settings derived
    from the `PROXY_URL` environment variable, and the two chat ids read from
    the stored configuration with `None` as the fallback. */
module Settings {
  import opened PythonText

  /** The proxy dictionary handed to the Telegram client. */
  datatype Proxy = Proxy(enabled: bool, hostname: string, port: int)

  /** The exceptions the proxy expression can raise, which stop the program:
      `IndexError` when the URL holds no `//`, `ValueError` when the text after
      its last `:` is not an integer. */
  datatype ProxyError = NoSchemeSeparator | PortNotInteger

  datatype ProxySetting = NoProxy | UseProxy(proxy: Proxy) | Raises(error: ProxyError)

  /** The last element of a non-empty sequence, as Python's `[-1]`. */
  function Last<T>(xs: seq<T>): T
    requires xs != []
  {
    xs[|xs| - 1]
  }

  /** `url.split("//")[1].split(":")[0]`, or `None` where indexing element 1
      raises `IndexError`. */
  function HostnameOf(url: string): Option<string> {
    var schemeParts := SplitOn(url, "//");
    if |schemeParts| < 2 then None else Some(SplitOn(schemeParts[1], ":")[0])
  }

  /** `int(url.split(":")[-1])`, or `None` where `int` raises `ValueError`. */
  function PortOf(url: string): Option<int> {
    PyInt(Last(SplitOn(url, ":")))
  }

  /** `{"enabled": True, "hostname": ..., "port": ...} if url else None`; the
      hostname is evaluated before the port. */
  function ProxyFrom(proxyUrl: Option<string>): ProxySetting {
    if proxyUrl.None? || proxyUrl.value == "" then NoProxy
    else
      match HostnameOf(proxyUrl.value)
      case None => Raises(NoSchemeSeparator)
      case Some(hostname) =>
        match PortOf(proxyUrl.value)
        case None => Raises(PortNotInteger)
        case Some(port) => UseProxy(Proxy(true, hostname, port))
  }

  /** No proxy is configured when the variable is unset or empty, and a
      configured proxy is always enabled. */
  lemma {:induction false} ProxyEnabledWhenSet(proxyUrl: Option<string>)
    ensures proxyUrl.None? || proxyUrl == Some("") ==> ProxyFrom(proxyUrl) == NoProxy
    ensures ProxyFrom(proxyUrl).UseProxy? ==> ProxyFrom(proxyUrl).proxy.enabled
    ensures ProxyFrom(proxyUrl).UseProxy? ==>
              && HostnameOf(proxyUrl.value) == Some(ProxyFrom(proxyUrl).proxy.hostname)
              && PortOf(proxyUrl.value) == Some(ProxyFrom(proxyUrl).proxy.port)
  {
  }

  /** A non-empty URL without `//` makes the expression raise `IndexError`,
      whatever follows its last `:`. */
  lemma {:induction false} ProxyNeedsSchemeSeparator(url: string)
    requires url != [] && Find(url, "//").None?
    ensures ProxyFrom(Some(url)) == Raises(NoSchemeSeparator)
  {
    SplitOnFirst(url, "//");
  }

  /** The hostname is the text after the first `//`, up to the first `:` or
      the next `//`, whichever comes first: it ends at one of them, or at the
      end, and no `//` starts inside it. */
  lemma {:induction false} HostnameFields(url: string)
    requires HostnameOf(url).Some?
    ensures Find(url, "//").Some?
    ensures var hostname := HostnameOf(url).value;
            var rest := url[Find(url, "//").value + 2..];
            && |hostname| <= |rest|
            && rest[..|hostname|] == hostname
            && Find(hostname, ":").None?
            && Find(hostname, "//").None?
            && (|hostname| == |rest| || rest[|hostname|] == ':' || OccursAt(rest, "//", |hostname|))
            && forall j :: 0 <= j < |hostname| ==> !OccursAt(rest, "//", j)
  {
    SplitOnFirst(url, "//");
    var i := Find(url, "//").value;
    var rest := url[i + 2..];
    var between := SplitOn(rest, "//")[0];
    assert SplitOn(url, "//")[1] == between by {
      assert SplitOn(url, "//") == [url[..i]] + SplitOn(rest, "//");
    }
    HostnameInPiece(rest, between);
  }

  /** The hostname is the first `:`-piece of the first `//`-piece of `rest`. */
  lemma {:induction false} HostnameInPiece(rest: string, between: string)
    requires between == SplitOn(rest, "//")[0]
    ensures var hostname := SplitOn(between, ":")[0];
            && |hostname| <= |rest|
            && rest[..|hostname|] == hostname
            && Find(hostname, ":").None?
            && Find(hostname, "//").None?
            && (|hostname| == |rest| || rest[|hostname|] == ':' || OccursAt(rest, "//", |hostname|))
            && forall j :: 0 <= j < |hostname| ==> !OccursAt(rest, "//", j)
  {
    var hostname := SplitOn(between, ":")[0];
    assert |between| <= |rest| && rest[..|between|] == between
           && Find(between, "//").None?
           && (|between| == |rest| || OccursAt(rest, "//", |between|)) by {
      SplitOnFirst(rest, "//");
    }
    assert |hostname| <= |between| && between[..|hostname|] == hostname
           && Find(hostname, ":").None?
           && (|hostname| == |between| || OccursAt(between, ":", |hostname|)) by {
      SplitOnFirst(between, ":");
    }
    assert rest[..|hostname|] == hostname by {
      assert rest[..|hostname|] == rest[..|between|][..|hostname|];
    }
    PrefixWithout(between, hostname, "//");
    assert forall j :: 0 <= j < |hostname| ==> !OccursAt(rest, "//", j) by {
      NoSeparatorBefore(rest, between);
    }
    if |hostname| < |between| {
      assert between[|hostname|..|hostname| + 1] == ":";
      assert rest[|hostname|] == between[|hostname|];
    }
  }

  /** No `//` starts inside the first `//`-piece of `rest`. */
  lemma {:induction false} NoSeparatorBefore(rest: string, between: string)
    requires between == SplitOn(rest, "//")[0]
    ensures forall j :: 0 <= j < |between| ==> !OccursAt(rest, "//", j)
  {
    SplitOnFirst(rest, "//");
  }

  /** The port is the integer written after the last `:` of the whole URL. */
  lemma {:induction false} PortFields(url: string)
    requires PortOf(url).Some?
    ensures exists k :: 0 <= k <= |url| && (k == 0 || url[k - 1] == ':') && Find(url[k..], ":").None? && PyInt(url[k..]) == PortOf(url)
  {
    var parts := SplitOn(url, ":");
    var tail := Last(parts);
    SplitOnLast(url, ":");
    if |parts| == 1 {
      assert url[0..] == tail;
    } else {
      var front := Join(parts[..|parts| - 1], ":") + ":";
      assert url == front + tail;
      assert url[|front|..] == tail;
      assert url[|front| - 1] == front[|front| - 1] == ':';
    }
  }

  /** `scheme://host:port`, with a scheme and a host free of `/` and `:`,
      yields exactly that host and port. */
  lemma {:induction false} ProxyRoundTrip(scheme: string, host: string, port: int)
    requires forall j :: 0 <= j < |scheme| ==> scheme[j] != '/' && scheme[j] != ':'
    requires forall j :: 0 <= j < |host| ==> host[j] != '/' && host[j] != ':'
    ensures ProxyFrom(Some(scheme + "://" + host + ":" + IntToString(port))) == UseProxy(Proxy(true, host, port))
  {
    var url := scheme + "://" + host + ":" + IntToString(port);
    RoundTripHostname(scheme, host, port);
    RoundTripPort(scheme, host, port);
    assert url != [];
  }

  lemma {:induction false} RoundTripHostname(scheme: string, host: string, port: int)
    requires forall j :: 0 <= j < |scheme| ==> scheme[j] != '/' && scheme[j] != ':'
    requires forall j :: 0 <= j < |host| ==> host[j] != '/' && host[j] != ':'
    ensures HostnameOf(scheme + "://" + host + ":" + IntToString(port)) == Some(host)
  {
    var portText := IntToString(port);
    IntToStringChars(port);
    var url := scheme + "://" + host + ":" + portText;
    var afterScheme := host + ":" + portText;
    assert url == (scheme + ":") + "//" + afterScheme;
    SplitOnFront(scheme + ":", "//", afterScheme);
    SplitOnWithout(afterScheme, "//");
    assert SplitOn(url, "//") == [scheme + ":", afterScheme];
    SplitOnFront(host, ":", portText);
  }

  lemma {:induction false} RoundTripPort(scheme: string, host: string, port: int)
    requires forall j :: 0 <= j < |scheme| ==> scheme[j] != '/' && scheme[j] != ':'
    requires forall j :: 0 <= j < |host| ==> host[j] != '/' && host[j] != ':'
    ensures PortOf(scheme + "://" + host + ":" + IntToString(port)) == Some(port)
  {
    var portText := IntToString(port);
    assert forall j :: 0 <= j < |portText| ==> portText[j] != ':' by {
      IntToStringChars(port);
    }
    LastPieceAfterHost(scheme, host, portText);
    IntRoundTrip(port);
  }

  /** A URL that names no port after its host makes the expression raise
      `ValueError`: the text after its last `:` is the `//host` part. */
  lemma {:induction false} ProxyWithoutPortRaises(scheme: string, host: string)
    requires forall j :: 0 <= j < |scheme| ==> scheme[j] != '/' && scheme[j] != ':'
    requires forall j :: 0 <= j < |host| ==> host[j] != '/' && host[j] != ':'
    ensures ProxyFrom(Some(scheme + "://" + host)) == Raises(PortNotInteger)
  {
    var url := scheme + "://" + host;
    var hostPart := "//" + host;
    assert HostnameOf(url).Some? by {
      assert url == (scheme + ":") + "//" + host;
      SplitOnFront(scheme + ":", "//", host);
    }
    assert Last(SplitOn(url, ":")) == hostPart by {
      NoColon(hostPart, host);
      assert url == scheme + ":" + hostPart;
      SplitOnFront(scheme, ":", hostPart);
      SplitOnWithout(hostPart, ":");
    }
    assert PortOf(url).None? by {
      PyIntRejects(hostPart, 0);
    }
  }

  /** `//host` holds no `:` when `host` holds none. */
  lemma {:induction false} NoColon(hostPart: string, host: string)
    requires hostPart == "//" + host
    requires forall j :: 0 <= j < |host| ==> host[j] != '/' && host[j] != ':'
    ensures forall j :: 0 <= j < |hostPart| ==> hostPart[j] != ':'
  {
    forall j | 0 <= j < |hostPart|
      ensures hostPart[j] != ':'
    {
      if j >= 2 {
        assert hostPart[j] == host[j - 2];
      }
    }
  }

  /** A URL with a path after its port makes the expression raise
      `ValueError`: the text after its last `:` ends in the path. */
  lemma {:induction false} ProxyWithPathRaises(scheme: string, host: string, port: int, path: string)
    requires forall j :: 0 <= j < |scheme| ==> scheme[j] != '/' && scheme[j] != ':'
    requires forall j :: 0 <= j < |host| ==> host[j] != '/' && host[j] != ':'
    requires forall j :: 0 <= j < |path| ==> path[j] != ':'
    ensures ProxyFrom(Some(scheme + "://" + host + ":" + IntToString(port) + "/" + path)) == Raises(PortNotInteger)
  {
    var portText := IntToString(port) + "/" + path;
    var url := scheme + "://" + host + ":" + portText;
    assert url == scheme + "://" + host + ":" + IntToString(port) + "/" + path;
    HostnameFound(scheme, host, portText);
    assert Last(SplitOn(url, ":")) == portText by {
      PathAfterPort(port, path);
      LastPieceAfterHost(scheme, host, portText);
    }
    assert PyInt(portText).None? by {
      PathAfterPort(port, path);
      PyIntRejects(portText, |IntToString(port)|);
    }
  }

  /** A separator control (U+001C..U+001F) between the last `:` and the port
      makes the expression raise `ValueError`: `int()` does not skip it,
      although `str.isspace()` holds for it. */
  lemma {:induction false} ProxyWithControlBeforePortRaises(scheme: string, host: string, c: char, port: int)
    requires forall j :: 0 <= j < |scheme| ==> scheme[j] != '/' && scheme[j] != ':'
    requires forall j :: 0 <= j < |host| ==> host[j] != '/' && host[j] != ':'
    requires '\U{1c}' <= c <= '\U{1f}'
    ensures ProxyFrom(Some(scheme + "://" + host + ":" + [c] + IntToString(port))) == Raises(PortNotInteger)
  {
    var portText := [c] + IntToString(port);
    var url := scheme + "://" + host + ":" + portText;
    assert url == scheme + "://" + host + ":" + [c] + IntToString(port);
    HostnameFound(scheme, host, portText);
    assert forall j :: 0 <= j < |portText| ==> portText[j] != ':' by {
      IntToStringChars(port);
      assert forall j :: 1 <= j < |portText| ==> portText[j] == IntToString(port)[j - 1];
    }
    LastPieceAfterHost(scheme, host, portText);
    IntRejectsSeparatorControls(c, IntToString(port));
  }

  /** The text after the port holds no `:`, and a `/` right after the digits. */
  lemma {:induction false} PathAfterPort(port: int, path: string)
    requires forall j :: 0 <= j < |path| ==> path[j] != ':'
    ensures var portText := IntToString(port) + "/" + path;
            && (forall j :: 0 <= j < |portText| ==> portText[j] != ':')
            && portText[|IntToString(port)|] == '/'
  {
    var digits := IntToString(port);
    var portText := digits + "/" + path;
    IntToStringChars(port);
    forall j | 0 <= j < |portText|
      ensures portText[j] != ':'
    {
      if j < |digits| {
        assert portText[j] == digits[j];
      } else if j > |digits| {
        assert portText[j] == path[j - |digits| - 1];
      }
    }
  }

  /** `scheme://host:tail` holds a `//`, so a hostname is found. */
  lemma {:induction false} HostnameFound(scheme: string, host: string, tail: string)
    requires forall j :: 0 <= j < |scheme| ==> scheme[j] != '/' && scheme[j] != ':'
    ensures HostnameOf(scheme + "://" + host + ":" + tail).Some?
  {
    var url := scheme + "://" + host + ":" + tail;
    assert url == (scheme + ":") + "//" + (host + ":" + tail);
    SplitOnFront(scheme + ":", "//", host + ":" + tail);
  }

  /** In `scheme://host:tail` with `tail` free of `:`, the last `:`-piece is
      `tail`. */
  lemma {:induction false} LastPieceAfterHost(scheme: string, host: string, tail: string)
    requires forall j :: 0 <= j < |scheme| ==> scheme[j] != '/' && scheme[j] != ':'
    requires forall j :: 0 <= j < |host| ==> host[j] != '/' && host[j] != ':'
    requires forall j :: 0 <= j < |tail| ==> tail[j] != ':'
    ensures Last(SplitOn(scheme + "://" + host + ":" + tail, ":")) == tail
  {
    var url := scheme + "://" + host + ":" + tail;
    var hostPart := "//" + host;
    assert url == scheme + ":" + (hostPart + ":" + tail);
    NoColon(hostPart, host);
    assert SplitOn(url, ":") == [scheme] + SplitOn(hostPart + ":" + tail, ":") by {
      SplitOnFront(scheme, ":", hostPart + ":" + tail);
    }
    assert SplitOn(hostPart + ":" + tail, ":") == [hostPart] + SplitOn(tail, ":") by {
      SplitOnFront(hostPart, ":", tail);
    }
    SplitOnWithout(tail, ":");
  }

  // ---------------------------------------------------------------------
  // Chat ids
  // ---------------------------------------------------------------------

  datatype ChatIds = ChatIds(inviting: Option<int>, invited: Option<int>)

  /** `chats.get(key)` on the loaded configuration. */
  function Lookup(chats: map<string, int>, key: string): Option<int> {
    if key in chats then Some(chats[key]) else None
  }

  /** The chat ids at start-up: `loaded` is the configuration table, or `None`
      when loading it raised, in which case both ids are `None`. */
  function LoadChatIds(loaded: Option<map<string, int>>): (ids: ChatIds)
    ensures loaded.None? ==> ids == ChatIds(None, None)
    ensures loaded.Some? ==>
              && (ids.inviting.Some? <==> "INVITING_CHAT" in loaded.value)
              && (ids.inviting.Some? ==> ids.inviting.value == loaded.value["INVITING_CHAT"])
              && (ids.invited.Some? <==> "INVITED_CHAT" in loaded.value)
              && (ids.invited.Some? ==> ids.invited.value == loaded.value["INVITED_CHAT"])
  {
    match loaded
    case None => ChatIds(None, None)
    case Some(chats) => ChatIds(Lookup(chats, "INVITING_CHAT"), Lookup(chats, "INVITED_CHAT"))
  }
}
