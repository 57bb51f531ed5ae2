/** services/driveService.ts: turning a pasted folder reference into a folder
    id, the thumbnail URL of a file, and the classification of the listing
    API's answer into a file list or an error. */
module DriveService {
  import opened Wrappers
  import opened Types

  // ---------------------------------------------------------------------------
  // Characters

  /** The character class [a-zA-Z0-9_-] of the folder-id pattern. */
  predicate IsIdChar(c: char) {
    ('a' <= c <= 'z') || ('A' <= c <= 'Z') || ('0' <= c <= '9') || c == '_' || c == '-'
  }

  predicate AllIdChars(s: string) {
    forall i :: 0 <= i < |s| ==> IsIdChar(s[i])
  }

  /** The characters that String.prototype.trim removes: ECMAScript's
      WhiteSpace (tab, vertical tab, form feed, space, no-break space, the
      byte order mark and every space separator of category Zs) and
      LineTerminator (line feed, carriage return, line and paragraph
      separator), as of Unicode 15. */
  predicate IsWhitespace(c: char) {
    || c == '\t' || c == '\n' || c == '\U{B}' || c == '\U{C}' || c == '\r' || c == ' '
    || c == '\U{A0}' || c == '\U{1680}' || ('\U{2000}' <= c <= '\U{200A}')
    || c == '\U{2028}' || c == '\U{2029}' || c == '\U{202F}' || c == '\U{205F}'
    || c == '\U{3000}' || c == '\U{FEFF}'
  }

  predicate AllWhitespace(s: string) {
    forall i :: 0 <= i < |s| ==> IsWhitespace(s[i])
  }

  // ---------------------------------------------------------------------------
  // String.prototype.trim

  /** Where the whitespace run starting at `from` ends. */
  function FirstKept(s: string, from: nat): (a: nat)
    requires from <= |s|
    decreases |s| - from
    ensures from <= a <= |s|
    ensures forall i :: from <= i < a ==> IsWhitespace(s[i])
    ensures a == |s| || !IsWhitespace(s[a])
  {
    if from < |s| && IsWhitespace(s[from]) then FirstKept(s, from + 1) else from
  }

  /** Where the whitespace run ending at `hi` starts, going no lower than
      `lo`. */
  function LastKept(s: string, lo: nat, hi: nat): (b: nat)
    requires lo <= hi <= |s|
    decreases hi
    ensures lo <= b <= hi
    ensures forall i :: b <= i < hi ==> IsWhitespace(s[i])
    ensures b == lo || !IsWhitespace(s[b - 1])
  {
    if lo < hi && IsWhitespace(s[hi - 1]) then LastKept(s, lo, hi - 1) else hi
  }

  /** `input.trim()`: the infix of `s` left once whitespace is taken off
      both ends. */
  function Trim(s: string): (r: string)
    ensures exists a :: 0 <= a <= |s| - |r| && r == s[a..a + |r|]
                        && AllWhitespace(s[..a]) && AllWhitespace(s[a + |r|..])
    ensures r == [] || (!IsWhitespace(r[0]) && !IsWhitespace(r[|r| - 1]))
    ensures r == [] <==> AllWhitespace(s)
  {
    var a := FirstKept(s, 0);
    var b := LastKept(s, a, |s|);
    TrimBounds(s, a, b);
    s[a..b]
  }

  /** What the two whitespace runs say about the infix between them. */
  lemma TrimBounds(s: string, a: nat, b: nat)
    requires a == FirstKept(s, 0) && b == LastKept(s, a, |s|)
    ensures AllWhitespace(s[..a]) && AllWhitespace(s[b..])
    ensures a < b ==> !IsWhitespace(s[a..b][0]) && !IsWhitespace(s[a..b][b - a - 1])
    ensures a == b <==> AllWhitespace(s)
  {
  }

  /** Trimming leaves a string alone when neither end is whitespace. */
  lemma TrimUnchanged(s: string)
    requires s == [] || (!IsWhitespace(s[0]) && !IsWhitespace(s[|s| - 1]))
    ensures Trim(s) == s
  {
  }

  // ---------------------------------------------------------------------------
  // extractFolderId

  const FolderMarker: string := "folders/"
  const MinIdLength: nat := 25

  /** Reference definition of a match of /folders\/([a-zA-Z0-9_-]{25,})/
      starting at position p: the literal "folders/" followed by at least
      MinIdLength id characters. */
  predicate MatchStartsAt(s: string, p: nat) {
    && p + |FolderMarker| + MinIdLength <= |s|
    && s[p..p + |FolderMarker|] == FolderMarker
    && forall k :: p + |FolderMarker| <= k < p + |FolderMarker| + MinIdLength ==> IsIdChar(s[k])
  }

  /** How far the greedy [a-zA-Z0-9_-] run starting at `from` extends. */
  function IdRunLength(s: string, from: nat): (n: nat)
    requires from <= |s|
    decreases |s| - from
    ensures from + n <= |s|
    ensures forall k :: from <= k < from + n ==> IsIdChar(s[k])
    ensures from + n == |s| || !IsIdChar(s[from + n])
  {
    if from < |s| && IsIdChar(s[from]) then 1 + IdRunLength(s, from + 1) else 0
  }

  /** The regular expression's attempt at one start position: the literal,
      then the greedy run, which must reach MinIdLength characters. */
  predicate MatchesAt(s: string, p: nat) {
    && p + |FolderMarker| <= |s|
    && s[p..p + |FolderMarker|] == FolderMarker
    && IdRunLength(s, p + |FolderMarker|) >= MinIdLength
  }

  /** The greedy attempt succeeds exactly where the reference definition
      finds a match. */
  lemma MatchesAtIsMatchStart(s: string, p: nat)
    ensures MatchesAt(s, p) <==> MatchStartsAt(s, p)
  {
  }

  /** The leftmost start position at or after `from` where a match begins,
      as the regular expression's scan finds it. */
  function FindMatch(s: string, from: nat): (p: Option<nat>)
    requires from <= |s|
    decreases |s| - from
    ensures p.Some? ==> from <= p.value && MatchStartsAt(s, p.value)
    ensures p.Some? ==> forall j: nat :: from <= j < p.value ==> !MatchStartsAt(s, j)
    ensures p.None? ==> forall j: nat :: from <= j ==> !MatchStartsAt(s, j)
  {
    MatchesAtIsMatchStart(s, from);
    if MatchesAt(s, from) then Some(from)
    else if from == |s| then None
    else FindMatch(s, from + 1)
  }

  /** `extractFolderId`: the id run after the first qualifying "folders/",
      or else the trimmed input; the empty input gives "". */
  function ExtractFolderId(input: string): (id: string)
    ensures input == "" ==> id == ""
    ensures |id| <= |input|
  {
    if input == "" then ""
    else match FindMatch(input, 0)
      case Some(p) =>
        var start := p + |FolderMarker|;
        input[start..start + IdRunLength(input, start)]
      case None => Trim(input)
  }

  /** When a match exists, the result is the whole id run that follows the
      leftmost match: at least MinIdLength id characters, in place right
      after "folders/", and ending where the id characters end. */
  lemma ExtractFolderIdFound(input: string, p: nat)
    requires MatchStartsAt(input, p)
    requires forall j: nat :: j < p ==> !MatchStartsAt(input, j)
    ensures var id := ExtractFolderId(input);
            var start := p + |FolderMarker|;
            && |id| >= MinIdLength
            && start + |id| <= |input|
            && id == input[start..start + |id|]
            && AllIdChars(id)
            && (start + |id| == |input| || !IsIdChar(input[start + |id|]))
  {
  }

  /** With no match anywhere, the result is the trimmed input. */
  lemma ExtractFolderIdNotFound(input: string)
    requires forall j: nat :: !MatchStartsAt(input, j)
    ensures ExtractFolderId(input) == Trim(input)
  {
  }

  /** A string of id characters holds no '/', hence no match. */
  lemma NoMatchInIdChars(s: string)
    requires AllIdChars(s)
    ensures forall j: nat :: !MatchStartsAt(s, j)
  {
    forall j: nat
      ensures !MatchStartsAt(s, j)
    {
      if j + |FolderMarker| <= |s| {
        assert s[j..j + |FolderMarker|][7] == s[j + 7];
      }
    }
  }

  /** A match inside an infix is a match of the whole string. */
  lemma MatchInInfix(s: string, a: nat, r: string, j: nat)
    requires a + |r| <= |s| && r == s[a..a + |r|]
    requires MatchStartsAt(r, j)
    ensures MatchStartsAt(s, a + j)
  {
    assert forall k :: 0 <= k < |r| ==> r[k] == s[a + k];
    assert s[a + j..a + j + |FolderMarker|] == r[j..j + |FolderMarker|];
  }

  /** A bare id made of id characters only is returned unchanged. */
  lemma {:induction false} BareIdUnchanged(id: string)
    requires AllIdChars(id)
    ensures ExtractFolderId(id) == id
  {
    NoMatchInIdChars(id);
    ExtractFolderIdNotFound(id);
    TrimUnchanged(id);
  }

  /** Extracting twice gives what extracting once gives: a found id is a
      bare id, and a trimmed input without a match still has none. */
  lemma {:induction false} ExtractFolderIdIdempotent(input: string)
    ensures ExtractFolderId(ExtractFolderId(input)) == ExtractFolderId(input)
  {
    var id := ExtractFolderId(input);
    if input != "" {
      match FindMatch(input, 0)
      case Some(p) =>
        ExtractFolderIdFound(input, p);
        BareIdUnchanged(id);
      case None =>
        TrimKeepsNoMatch(input);
        ExtractFolderIdNotFound(id);
        TrimUnchanged(id);
    }
  }

  /** Trimming an input without a match leaves none. */
  lemma TrimKeepsNoMatch(input: string)
    requires forall j: nat :: !MatchStartsAt(input, j)
    ensures forall j: nat :: !MatchStartsAt(Trim(input), j)
  {
    var r := Trim(input);
    var a :| 0 <= a <= |input| - |r| && r == input[a..a + |r|]
             && AllWhitespace(input[..a]) && AllWhitespace(input[a + |r|..]);
    forall j: nat
      ensures !MatchStartsAt(r, j)
    {
      if MatchStartsAt(r, j) {
        MatchInInfix(input, a, r, j);
      }
    }
  }

  /** A share link `host + "folders/" + id + tail`, where the host part has
      no 'f' and the tail does not continue the id, yields exactly the id. */
  lemma ExtractFolderIdFromLink(host: string, id: string, tail: string)
    requires 'f' !in host
    requires |id| >= MinIdLength && AllIdChars(id)
    requires tail == [] || !IsIdChar(tail[0])
    ensures ExtractFolderId(host + FolderMarker + id + tail) == id
  {
    var s := host + FolderMarker + id + tail;
    var start := |host| + |FolderMarker|;
    assert forall k :: 0 <= k < |host| ==> s[k] == host[k];
    assert forall k :: 0 <= k < |id| ==> s[start + k] == id[k];
    assert s[|host|..start] == FolderMarker;
    forall j: nat | j < |host|
      ensures !MatchStartsAt(s, j)
    {
      assert j + |FolderMarker| <= |s| ==> s[j..j + |FolderMarker|][0] == s[j];
    }
    assert MatchStartsAt(s, |host|);
    ExtractFolderIdFound(s, |host|);
    var found := ExtractFolderId(s);
    assert start + |id| < |s| ==> s[start + |id|] == tail[0];
    assert forall k :: start <= k < start + |id| ==> IsIdChar(s[k]);
    assert found == s[start..start + |id|] == id;
  }

  /** An example share link:
      https://drive.example.com/drive/folders/1aBcDeFgHiJkLmNoPqRsTuVwXyZ0123. */
  lemma ExtractFolderIdExample()
    ensures ExtractFolderId("https://drive.example.com/drive/" + "folders/" + "1aBcDeFgHiJkLmNoPqRsTuVwXyZ0123")
            == "1aBcDeFgHiJkLmNoPqRsTuVwXyZ0123"
  {
    var host := "https://drive.example.com/drive/";
    var id := "1aBcDeFgHiJkLmNoPqRsTuVwXyZ0123";
    assert AllIdChars(id);
    ExtractFolderIdFromLink(host, id, "");
    assert host + FolderMarker + id + "" == host + FolderMarker + id;
  }

  // ---------------------------------------------------------------------------
  // getDriveImageUrl

  const ThumbnailPrefix: string := "https://drive.google.com/thumbnail?id="
  const ThumbnailSuffix: string := "&sz=w800"

  /** `getDriveImageUrl`: the 800-pixel thumbnail URL of a file, the id
      framed by a fixed prefix and suffix. */
  function DriveImageUrl(fileId: string): (url: string)
    ensures |url| == |ThumbnailPrefix| + |fileId| + |ThumbnailSuffix|
    ensures url[..|ThumbnailPrefix|] == ThumbnailPrefix
    ensures url[|ThumbnailPrefix|..|ThumbnailPrefix| + |fileId|] == fileId
    ensures url[|ThumbnailPrefix| + |fileId|..] == ThumbnailSuffix
  {
    ThumbnailPrefix + fileId + ThumbnailSuffix
  }

  /** Reads the file id back out of a thumbnail URL, if it has that shape. */
  function ThumbnailFileId(url: string): (id: Option<string>) {
    if |url| >= |ThumbnailPrefix| + |ThumbnailSuffix|
       && url[..|ThumbnailPrefix|] == ThumbnailPrefix
       && url[|url| - |ThumbnailSuffix|..] == ThumbnailSuffix
    then Some(url[|ThumbnailPrefix|..|url| - |ThumbnailSuffix|])
    else None
  }

  /** The id can be read back from its thumbnail URL. */
  lemma ThumbnailUrlRoundTrip(fileId: string)
    ensures ThumbnailFileId(DriveImageUrl(fileId)) == Some(fileId)
  {
  }

  /** Distinct ids give distinct thumbnail URLs. */
  lemma DriveImageUrlInjective(a: string, b: string)
    requires DriveImageUrl(a) == DriveImageUrl(b)
    ensures a == b
  {
    ThumbnailUrlRoundTrip(a);
    ThumbnailUrlRoundTrip(b);
  }

  // ---------------------------------------------------------------------------
  // fetchDriveFiles

  const MissingApiKeyMessage: string :=
    "Hệ thống chưa cấu hình API Key. Vui lòng kiểm tra môi trường."
  const NotPublicMessage: string :=
    "Thư mục này chưa được công khai. Hãy đặt chế độ 'Bất kỳ ai có liên kết đều có thể xem' trên Google Drive."
  const DefaultRejectionMessage: string := "Không thể truy cập thư mục này."
  const PermissionDenied: string := "PERMISSION_DENIED"

  /** The `error` object of a decoded answer. */
  datatype ApiError = ApiError(status: Option<string>, message: Option<string>)

  /** One entry of the decoded `files` array; the optional link fields of
      the record may be present and are not copied. */
  datatype ListedFile = ListedFile(
    id: string, name: string, mimeType: string,
    thumbnailLink: Option<string>, webContentLink: Option<string>)

  /** The decoded JSON answer: an optional `error` and an optional `files`. */
  datatype ResponseBody = ResponseBody(error: Option<ApiError>, files: Option<seq<ListedFile>>)

  /** What the request produced: a decoded body of the expected shape, or
      any error thrown while requesting, decoding or reading the answer. */
  datatype Reply = Delivered(body: ResponseBody) | Failed(reason: string)

  /** The errors `fetchDriveFiles` throws. */
  datatype FetchError =
    | MissingApiKey
    | NotPublic
    | Rejected(apiMessage: string)
    | Thrown(reason: string)
  {
    /** The `message` of the thrown Error. */
    function Message(): (m: string) {
      match this
      case MissingApiKey => MissingApiKeyMessage
      case NotPublic => NotPublicMessage
      case Rejected(m) => m
      case Thrown(reason) => reason
    }
  }

  /** The outcome of one call: the URL requested, if any, and the result. */
  datatype Fetch = Fetch(request: Option<string>, result: Result<seq<DriveFile>, FetchError>)

  /** `!apiKey || apiKey === "undefined"` fails: the key is set, non-empty
      and not the text "undefined". */
  predicate ApiKeyConfigured(apiKey: Option<string>) {
    apiKey.Some? && apiKey.value != "" && apiKey.value != "undefined"
  }

  const ListUrlHead: string := "https://www.googleapis.com/drive/v3/files?q='"
  const ListUrlQuery: string := "'+in+parents+and+mimeType+contains+'image/'&key="
  const ListUrlTail: string := "&fields=files(id,name,mimeType)&pageSize=1000"

  /** The listing request: files whose parent is the folder and whose media
      type contains "image/", at most 1000, with only id, name and mimeType. */
  function ListRequestUrl(folderId: string, apiKey: string): (url: string)
    ensures |url| == |ListUrlHead| + |folderId| + |ListUrlQuery| + |apiKey| + |ListUrlTail|
    ensures url[..|ListUrlHead|] == ListUrlHead
    ensures url[|ListUrlHead|..|ListUrlHead| + |folderId|] == folderId
    ensures url[|ListUrlHead| + |folderId|..|ListUrlHead| + |folderId| + |ListUrlQuery|] == ListUrlQuery
    ensures url[|url| - |ListUrlTail| - |apiKey|..|url| - |ListUrlTail|] == apiKey
    ensures url[|url| - |ListUrlTail|..] == ListUrlTail
  {
    ListUrlHead + folderId + ListUrlQuery + apiKey + ListUrlTail
  }

  /** `data.error.message || "..."`: an absent or empty message falls back to
      the default text, so a rejection always carries text. */
  function RejectionMessage(message: Option<string>): (m: string)
    ensures m != ""
    ensures message.None? || message.value == "" ==> m == DefaultRejectionMessage
    ensures message.Some? && message.value != "" ==> m == message.value
  {
    if message.Some? && message.value != "" then message.value else DefaultRejectionMessage
  }

  /** `data.files.map(...)`: keeps id, name and mimeType of every entry, in
      order. */
  function ToDriveFiles(listed: seq<ListedFile>): (files: seq<DriveFile>)
    ensures |files| == |listed|
    ensures forall i :: 0 <= i < |listed| ==>
              files[i] == DriveFile(listed[i].id, listed[i].name, listed[i].mimeType)
  {
    if listed == [] then []
    else [DriveFile(listed[0].id, listed[0].name, listed[0].mimeType)] + ToDriveFiles(listed[1..])
  }

  /** The classification of a decoded answer. An error object wins over any
      file list: permission denied is told apart from every other rejection;
      a missing or empty list is an empty success. */
  function ClassifyBody(body: ResponseBody): (r: Result<seq<DriveFile>, FetchError>)
    ensures r.Success? <==> body.error.None?
    ensures body.error.Some? && body.error.value.status == Some(PermissionDenied) ==>
              r == Failure(NotPublic)
    ensures body.error.Some? && body.error.value.status != Some(PermissionDenied) ==>
              r == Failure(Rejected(RejectionMessage(body.error.value.message)))
    ensures body.error.None? && (body.files.None? || body.files.value == []) ==>
              r == Success([])
    ensures body.error.None? && body.files.Some? ==>
              r.Success? && |r.value| == |body.files.value|
  {
    match body.error
    case Some(e) =>
      if e.status == Some(PermissionDenied) then Failure(NotPublic)
      else Failure(Rejected(RejectionMessage(e.message)))
    case None =>
      if body.files.None? || body.files.value == [] then Success([])
      else Success(ToDriveFiles(body.files.value))
  }

  /** The classification of whatever the request produced: a thrown
      transport or decoding error is passed on unchanged. */
  function ClassifyReply(reply: Reply): (r: Result<seq<DriveFile>, FetchError>)
    ensures reply.Failed? ==> r == Failure(Thrown(reply.reason))
    ensures reply.Delivered? ==> r == ClassifyBody(reply.body)
  {
    match reply
    case Failed(reason) => Failure(Thrown(reason))
    case Delivered(body) => ClassifyBody(body)
  }

  /** `fetchDriveFiles` with the network call abstracted: `reply` stands for
      what the server answers if asked. Without a usable key no request is
      made and the call fails; otherwise the folder reference is cleaned,
      the listing URL is requested and its answer classified. */
  function FetchDriveFiles(folderRef: string, apiKey: Option<string>, reply: Reply): (f: Fetch)
    ensures !ApiKeyConfigured(apiKey) ==> f == Fetch(None, Failure(MissingApiKey))
    ensures ApiKeyConfigured(apiKey) ==>
              f.request == Some(ListRequestUrl(ExtractFolderId(folderRef), apiKey.value))
    ensures ApiKeyConfigured(apiKey) ==> f.result == ClassifyReply(reply)
  {
    var cleanId := ExtractFolderId(folderRef);
    if !ApiKeyConfigured(apiKey) then Fetch(None, Failure(MissingApiKey))
    else Fetch(Some(ListRequestUrl(cleanId, apiKey.value)), ClassifyReply(reply))
  }

  /** A listing copies the listed entries one for one, in order. */
  lemma ListingCopiesEntries(listed: seq<ListedFile>, i: nat)
    requires i < |listed|
    ensures var r := ClassifyBody(ResponseBody(None, Some(listed)));
            (&& r.Success? && |r.value| == |listed|
             && r.value[i].id == listed[i].id
             && r.value[i].name == listed[i].name
             && r.value[i].mimeType == listed[i].mimeType)
  {
  }

  /** Permission denied surfaces as the not-public error, whose text differs
      from the default rejection text, and never as a generic rejection. */
  lemma PermissionDeniedIsDistinct(body: ResponseBody, other: ResponseBody)
    requires body.error.Some? && body.error.value.status == Some(PermissionDenied)
    requires other.error.Some? && other.error.value.status != Some(PermissionDenied)
    ensures ClassifyBody(body) != ClassifyBody(other)
    ensures ClassifyBody(body).error.Message() != DefaultRejectionMessage
  {
  }
}
