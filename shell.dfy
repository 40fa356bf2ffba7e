/** The Android shell around the web app: the one-slot mailbox that hands
    picked files back to the WebView, the choice of picker, the storage
    permission request, back-key routing, the download file name and the
    error page rule. The WebView, the pickers and the platform services are
    outside the model: what they report is a parameter, and what the
    activity hands back is recorded. */
module Shell {
  import opened Basics

  // ---------------------------------------------------------------------
  // The file-chooser mailbox

  /** A callback the WebView hands over with a file-chooser request; each
      request brings its own. */
  class ValueCallback {
    constructor () {}
  }

  datatype Uri = Uri(text: string)

  /** One `onReceiveValue` call: the picked files, or null for a cancelled
      or superseded request. */
  datatype Delivery = Delivery(callback: ValueCallback, value: Option<seq<Uri>>)

  /** The picker started for a request. */
  datatype Launch = DocumentPicker(mimeTypes: seq<string>) | ContentPicker(mimeType: string)

  /** How `onShowFileChooser` ends: it returns true after starting a
      picker, or the exception from starting the content picker escapes. */
  datatype ChooserResult = Handled(launch: Launch) | Threw

  /** How many values a callback has been given. */
  function Deliveries(log: seq<Delivery>, c: ValueCallback): nat
    decreases |log|
  {
    if log == [] then 0
    else Deliveries(log[..|log| - 1], c) + (if log[|log| - 1].callback == c then 1 else 0)
  }

  lemma DeliveriesAppend(log: seq<Delivery>, d: Delivery, c: ValueCallback)
    ensures Deliveries(log + [d], c) == Deliveries(log, c) + (if d.callback == c then 1 else 0)
  {
    assert (log + [d])[..|log|] == log;
  }

  /** A callback that was never handed over has been given nothing. */
  lemma {:induction false} NoDeliveriesToStranger(log: seq<Delivery>, c: ValueCallback)
    requires forall i :: 0 <= i < |log| ==> log[i].callback != c
    ensures Deliveries(log, c) == 0
    decreases |log|
  {
    if log != [] {
      NoDeliveriesToStranger(log[..|log| - 1], c);
    }
  }

  /** The accept types the chooser falls back to when none are given. */
  function AcceptTypesOrDefault(acceptTypes: Option<seq<string>>): seq<string> {
    acceptTypes.GetOr(["*/*"])
  }

  function AnyVideoType(types: seq<string>): (any: bool)
    ensures any <==> exists i :: 0 <= i < |types| && (StartsWith(types[i], "video/") || types[i] == "*/*")
  {
    if types == [] then false
    else if StartsWith(types[0], "video/") || types[0] == "*/*" then true
    else
      var any := AnyVideoType(types[1..]);
      assert forall i :: 1 <= i < |types| ==> types[i] == types[1..][i - 1];
      any
  }

  /** The `isVideo` test: the video document picker is used when some
      accepted type is a video type or anything at all. */
  function IsVideoRequest(acceptTypes: Option<seq<string>>): (isVideo: bool)
    ensures acceptTypes.None? ==> isVideo
    ensures var types := AcceptTypesOrDefault(acceptTypes);
      isVideo <==> exists i :: 0 <= i < |types| && (StartsWith(types[i], "video/") || types[i] == "*/*")
  {
    var types := AcceptTypesOrDefault(acceptTypes);
    var any := AnyVideoType(types);
    assert types == ["*/*"] ==> types[0] == "*/*";
    any
  }

  class MainActivity {
    var fileUploadCallback: ValueCallback?
    /** Every value handed to a callback, in order. */
    var delivered: seq<Delivery>
    /** Every document whose read grant was made persistent, in order. */
    var persistedGrants: seq<Uri>
    /** Every callback the WebView has handed over, in order. */
    ghost var requested: seq<ValueCallback>

    /** The mailbox holds at most one callback, which has been given
        nothing yet; every other callback handed over has been given exactly
        one value; nothing else has been given anything. */
    ghost predicate Valid()
      reads this
    {
      (fileUploadCallback != null ==>
         fileUploadCallback in requested && Deliveries(delivered, fileUploadCallback) == 0) &&
      (forall c :: c in requested && c != fileUploadCallback ==> Deliveries(delivered, c) == 1) &&
      (forall i :: 0 <= i < |delivered| ==> delivered[i].callback in requested)
    }

    constructor ()
      ensures Valid()
      ensures fileUploadCallback == null && delivered == [] && persistedGrants == [] && requested == []
    {
      fileUploadCallback := null;
      delivered := [];
      persistedGrants := [];
      requested := [];
    }

    /** Gives the pending callback, if any, its value and empties the slot. */
    method Settle(value: Option<seq<Uri>>)
      requires Valid()
      modifies this
      ensures Valid() && fileUploadCallback == null
      ensures delivered == old(delivered) +
        if old(fileUploadCallback) != null then [Delivery(old(fileUploadCallback), value)] else []
      ensures forall c :: c in requested ==> Deliveries(delivered, c) == 1
      ensures requested == old(requested) && persistedGrants == old(persistedGrants)
    {
      if fileUploadCallback != null {
        forall c | c in requested {
          DeliveriesAppend(delivered, Delivery(fileUploadCallback, value), c);
        }
        delivered := delivered + [Delivery(fileUploadCallback, value)];
      }
      fileUploadCallback := null;
    }

    /** `onShowFileChooser`: a pending callback is first given null, then
        the new one waits in the slot. The video document picker is started
        for a video request, with the content picker for videos as the
        fallback when it cannot be started; any other request gets the
        content picker for any file. The request is reported as handled
        unless the content picker cannot be started either: that exception
        escapes, and the new callback is left waiting in the slot. */
    method OnShowFileChooser(callback: ValueCallback?, acceptTypes: Option<seq<string>>,
                             documentPickerThrows: bool, contentPickerThrows: bool)
      returns (result: ChooserResult)
      requires Valid()
      requires callback == null || callback !in requested
      modifies this
      ensures Valid()
      ensures fileUploadCallback == callback
      ensures delivered == old(delivered) +
        if old(fileUploadCallback) != null then [Delivery(old(fileUploadCallback), None)] else []
      ensures requested == old(requested) + if callback != null then [callback] else []
      ensures result ==
        if IsVideoRequest(acceptTypes) && !documentPickerThrows then Handled(DocumentPicker(["video/*"]))
        else if contentPickerThrows then Threw
        else if IsVideoRequest(acceptTypes) then Handled(ContentPicker("video/*"))
        else Handled(ContentPicker("*/*"))
      ensures persistedGrants == old(persistedGrants)
    {
      Settle(None);
      if callback != null {
        NoDeliveriesToStranger(delivered, callback);
        requested := requested + [callback];
      }
      fileUploadCallback := callback;
      if IsVideoRequest(acceptTypes) {
        if documentPickerThrows {
          result := if contentPickerThrows then Threw else Handled(ContentPicker("video/*"));
        } else {
          result := Handled(DocumentPicker(["video/*"]));
        }
      } else {
        result := if contentPickerThrows then Threw else Handled(ContentPicker("*/*"));
      }
    }

    /** The content picker's result: the pending callback gets the picked
        file, or null when nothing was picked, and the slot empties; every
        callback handed over has then been given exactly one value. */
    method OnContentPicked(uri: Option<Uri>)
      requires Valid()
      modifies this
      ensures Valid() && fileUploadCallback == null
      ensures delivered == old(delivered) +
        if old(fileUploadCallback) != null
        then [Delivery(old(fileUploadCallback), if uri.Some? then Some([uri.value]) else None)]
        else []
      ensures forall c :: c in requested ==> Deliveries(delivered, c) == 1
      ensures requested == old(requested) && persistedGrants == old(persistedGrants)
    {
      Settle(if uri.Some? then Some([uri.value]) else None);
    }

    /** The document picker's result: as the content picker's, and a picked
        document's read grant is first made persistent. */
    method OnDocumentPicked(uri: Option<Uri>)
      requires Valid()
      modifies this
      ensures Valid() && fileUploadCallback == null
      ensures delivered == old(delivered) +
        if old(fileUploadCallback) != null
        then [Delivery(old(fileUploadCallback), if uri.Some? then Some([uri.value]) else None)]
        else []
      ensures forall c :: c in requested ==> Deliveries(delivered, c) == 1
      ensures persistedGrants == old(persistedGrants) + if uri.Some? then [uri.value] else []
      ensures requested == old(requested)
    {
      if uri.Some? {
        persistedGrants := persistedGrants + [uri.value];
      }
      Settle(if uri.Some? then Some([uri.value]) else None);
    }
  }

  /** Two requests in a row: the first callback is given null when the
      second arrives, the second gets the picked file, and each has been
      given exactly one value. */
  method SupersededRequest(first: ValueCallback, second: ValueCallback, uri: Uri)
    returns (activity: MainActivity)
    requires first != second
    ensures activity.delivered == [Delivery(first, None), Delivery(second, Some([uri]))]
    ensures Deliveries(activity.delivered, first) == 1 && Deliveries(activity.delivered, second) == 1
    ensures activity.fileUploadCallback == null
  {
    activity := new MainActivity();
    var result := activity.OnShowFileChooser(first, None, false, false);
    result := activity.OnShowFileChooser(second, Some(["video/mp4"]), false, false);
    activity.OnDocumentPicked(Some(uri));
  }

  // ---------------------------------------------------------------------
  // Permissions, keys, downloads and errors

  datatype Permission = ReadMediaVideo | ReadExternalStorage

  /** The first SDK level with per-media read permissions (Android 13). */
  const Tiramisu := 33

  /** The one storage permission the app needs on a given SDK level. */
  function PermissionFor(sdk: int): (p: Permission)
    ensures p == ReadMediaVideo <==> sdk >= 33
    ensures p == ReadExternalStorage <==> sdk < 33
  {
    if sdk >= Tiramisu then ReadMediaVideo else ReadExternalStorage
  }

  /** `checkPermissions`: the permission for this SDK level is requested
      when it has not been granted, and the request is launched only when
      there is something to ask for. */
  method CheckPermissions(sdk: int, granted: set<Permission>) returns (toRequest: seq<Permission>, launched: bool)
    ensures forall p :: p in toRequest <==> p == PermissionFor(sdk) && p !in granted
    ensures |toRequest| <= 1
    ensures launched <==> toRequest != []
  {
    toRequest := [];
    if sdk >= Tiramisu {
      if ReadMediaVideo !in granted {
        toRequest := toRequest + [ReadMediaVideo];
      }
    } else {
      if ReadExternalStorage !in granted {
        toRequest := toRequest + [ReadExternalStorage];
      }
    }
    launched := |toRequest| > 0;
  }

  const KeycodeBack := 4

  datatype KeyRoute = WentBack | DefaultHandling

  /** `onKeyDown`: Back goes back in the WebView, and is consumed, exactly
      when the WebView has somewhere to go back to. */
  function RouteKey(keyCode: int, canGoBack: bool): (r: KeyRoute)
    ensures r == WentBack <==> keyCode == KeycodeBack && canGoBack
  {
    if keyCode == KeycodeBack && canGoBack then WentBack else DefaultHandling
  }

  /** Whether the key event counts as handled, given what the default
      handling reports. */
  function KeyConsumed(keyCode: int, canGoBack: bool, defaultResult: bool): (consumed: bool)
    ensures RouteKey(keyCode, canGoBack) == WentBack ==> consumed
    ensures RouteKey(keyCode, canGoBack) == DefaultHandling ==> consumed == defaultResult
  {
    if RouteKey(keyCode, canGoBack) == WentBack then true else defaultResult
  }

  /** The value of a hexadecimal digit, either case. */
  function HexValue(c: char): (v: Option<nat>)
    ensures v.Some? ==> v.value < 16
  {
    if '0' <= c <= '9' then Some(c as int - '0' as int)
    else if 'a' <= c <= 'f' then Some(c as int - 'a' as int + 10)
    else if 'A' <= c <= 'F' then Some(c as int - 'A' as int + 10)
    else None
  }

  function HexDigit(v: nat): (c: char)
    requires v < 16
    ensures HexValue(c) == Some(v)
  {
    if v < 10 then '0' + v as char else 'A' + (v - 10) as char
  }

  function Prepend(c: char, rest: Option<string>): Option<string> {
    if rest.Some? then Some([c] + rest.value) else None
  }

  /** `URLDecoder.decode` for escapes of ASCII hexadecimal digits: `+` is a
      blank, `%` and two ASCII hexadecimal digits is the character with that
      code, and a `%` without two such digits after it makes the decoding
      fail. */
  function UrlDecode(s: string): (r: Option<string>)
    ensures r.Some? ==> |r.value| <= |s|
    decreases |s|
  {
    if s == [] then Some([])
    else if s[0] == '+' then Prepend(' ', UrlDecode(s[1..]))
    else if s[0] == '%' then
      if |s| < 3 then None
      else
        var high, low := HexValue(s[1]), HexValue(s[2]);
        if high.Some? && low.Some? then Prepend((high.value * 16 + low.value) as char, UrlDecode(s[3..]))
        else None
    else Prepend(s[0], UrlDecode(s[1..]))
  }

  /** A character that encoding leaves as it is: letters, digits, `.-_`
      and every character outside ASCII. */
  predicate Unreserved(c: char) {
    'a' <= c <= 'z' || 'A' <= c <= 'Z' || '0' <= c <= '9' || c == '.' || c == '-' || c == '_' || c >= 128 as char
  }

  /** Escapes every ASCII character other than letters, digits and `.-_` as
      `%` and two upper-case hexadecimal digits. An escape then always stands
      for one ASCII byte, which the platform decodes the same way whether it
      reads the bytes as UTF-8 or one byte per character. */
  function PercentEncode(s: string): string {
    if s == [] then []
    else if Unreserved(s[0]) then [s[0]] + PercentEncode(s[1..])
    else ['%', HexDigit(s[0] as int / 16), HexDigit(s[0] as int % 16)] + PercentEncode(s[1..])
  }

  /** Decoding undoes encoding, whatever the name. */
  lemma {:induction false} UrlDecodeOfEncode(s: string)
    ensures UrlDecode(PercentEncode(s)) == Some(s)
    decreases |s|
  {
    if s != [] {
      UrlDecodeOfEncode(s[1..]);
      var e := PercentEncode(s);
      if Unreserved(s[0]) {
        assert e[1..] == PercentEncode(s[1..]);
      } else {
        assert e[3..] == PercentEncode(s[1..]);
        assert (s[0] as int / 16 * 16 + s[0] as int % 16) as char == s[0];
      }
      assert s == [s[0]] + s[1..];
    }
  }

  /** A name without `%` and `+` decodes to itself. */
  lemma {:induction false} UrlDecodePlain(s: string)
    requires '%' !in s && '+' !in s
    ensures UrlDecode(s) == Some(s)
    decreases |s|
  {
    if s != [] {
      UrlDecodePlain(s[1..]);
      assert s == [s[0]] + s[1..];
    }
  }

  /** A `%` too close to the end makes the decoding fail. */
  lemma {:induction false} UrlDecodeTrailingPercent(prefix: string, tail: string)
    requires '%' !in prefix && |tail| < 2
    ensures UrlDecode(prefix + "%" + tail) == None
    decreases |prefix|
  {
    if prefix != [] {
      assert (prefix + "%" + tail)[1..] == prefix[1..] + "%" + tail;
      UrlDecodeTrailingPercent(prefix[1..], tail);
    } else {
      assert prefix + "%" + tail == "%" + tail;
    }
  }

  /** The name a download is saved under: the guessed name decoded, or the
      guessed name itself when it cannot be decoded. */
  function DownloadFileName(guessed: string): (name: string)
    ensures UrlDecode(guessed).None? ==> name == guessed
    ensures UrlDecode(guessed).Some? ==> name == UrlDecode(guessed).value
  {
    UrlDecode(guessed).GetOr(guessed)
  }

  /** The error page replaces the WebView's content only for errors of the
      main frame; an error with no request, or of a sub-resource, does not. */
  function ShowsErrorPage(isForMainFrame: Option<bool>): (shown: bool)
    ensures shown <==> isForMainFrame == Some(true)
  {
    isForMainFrame.Some? && isForMainFrame.value
  }
}
