/**
 * The WeChat integration service: the request models and their defaults,
 * the table of friendly messages for WeChat error codes, the `WeChatError`
 * exception, the draft article, and the control flow of the two draft
 * operations around their HTTP calls.
 *
 * The HTTP calls themselves are parameters: each gives either the decoded
 * JSON reply or the text of the exception it raised. Markdown conversion
 * and the theme renderer are parameters too.
 */
module WeChat {
  import opened Wrappers
  import opened Text
  import opened Theme
  import Dict
  import MarkdownUtils

  /** A JSON value as the WeChat API sends and receives it. */
  datatype Json =
    | Num(n: int)
    | Str(s: string)
    | List(items: seq<Json>)
    | Obj(fields: seq<(string, Json)>)

  type JsonObject = seq<(string, Json)>

  // ---------------------------------------------------------------------
  // Request models

  datatype DraftRequest = DraftRequest(
    appid: string, secret: string, markdown: string, style: string,
    thumbMediaId: string, author: string, digest: string, contentSourceUrl: string,
    needOpenComment: int, onlyFansCanComment: int)

  datatype DirectDraftRequest = DirectDraftRequest(
    accessToken: string, title: string, content: string,
    author: string, digest: string, contentSourceUrl: string, thumbMediaId: string,
    needOpenComment: int, onlyFansCanComment: int)

  /** `WeChatDraftRequest` built from its required fields only. */
  function NewDraftRequest(appid: string, secret: string, markdown: string): (r: DraftRequest)
    ensures r.appid == appid && r.secret == secret && r.markdown == markdown
    ensures r.style == "wechat-default"
    ensures r.thumbMediaId == "" && r.author == "" && r.digest == "" && r.contentSourceUrl == ""
    ensures r.needOpenComment == 1 && r.onlyFansCanComment == 1
  {
    DraftRequest(appid, secret, markdown, "wechat-default", "", "", "", "", 1, 1)
  }

  /** `WeChatDirectDraftRequest` built from its required fields only. */
  function NewDirectDraftRequest(accessToken: string, title: string, content: string): (r: DirectDraftRequest)
    ensures r.accessToken == accessToken && r.title == title && r.content == content
    ensures r.author == "" && r.digest == "" && r.contentSourceUrl == "" && r.thumbMediaId == ""
    ensures r.needOpenComment == 1 && r.onlyFansCanComment == 1
  {
    DirectDraftRequest(accessToken, title, content, "", "", "", "", 1, 1)
  }

  // ---------------------------------------------------------------------
  // Error messages and the exception

  /** The friendly messages for the error codes the service knows. */
  const ErrorMessages: map<int, string> := map[
    40013 := "无效的AppID，请检查微信公众号AppID是否正确",
    40001 := "AppSecret错误，请检查微信公众号AppSecret是否正确",
    40002 := "请检查公众号权限，确保已开通草稿箱功能",
    40164 := "IP地址未在白名单中，请在微信公众号后台添加IP: 101.246.231.55"]

  /** `_get_error_message`: the friendly message of a known code, the given
      message for any other code (a code that is not a number is never
      known). */
  function ErrorMessage(code: Json, default: string): string {
    if code.Num? && code.n in ErrorMessages then ErrorMessages[code.n] else default
  }

  /** Exactly four codes have friendly messages, all different; every other
      code keeps the message it came with. */
  lemma ErrorMessageTable(code: Json, default: string)
    ensures ErrorMessages.Keys == {40013, 40001, 40002, 40164}
    ensures forall a, b :: a in ErrorMessages && b in ErrorMessages && a != b ==> ErrorMessages[a] != ErrorMessages[b]
    ensures !(code.Num? && code.n in {40013, 40001, 40002, 40164}) ==> ErrorMessage(code, default) == default
    ensures code.Num? && code.n in {40013, 40001, 40002, 40164} ==>
      ErrorMessage(code, default) == ErrorMessage(code, "") && ErrorMessage(code, default) != ""
  {
    assert ErrorMessages[40013][0] == '无';
    assert ErrorMessages[40001][0] == 'A';
    assert ErrorMessages[40002][0] == '请';
    assert ErrorMessages[40164][0] == 'I';
  }

  /** `WeChatError`: an exception carrying the error code, the message and
      the WeChat reply it came from. */
  class WeChatError {
    var errorCode: Json
    var errorMsg: string
    var original: JsonObject

    /** `original or {}`: no reply (or an empty one) is the empty object. */
    constructor (code: Json, msg: string, reply: Option<JsonObject>)
      ensures errorCode == code && errorMsg == msg
      ensures original == (if reply.Some? then reply.value else [])
    {
      errorCode := code;
      errorMsg := msg;
      original := if reply.Some? then reply.value else [];
    }

    /** `str(e)` */
    function Message(): string
      reads this
    {
      errorMsg
    }

    /** `to_dict` */
    function ToDict(): (r: JsonObject)
      reads this
      ensures Dict.Keys(r) == ["errcode", "errmsg", "original"]
      ensures Dict.Get(r, "errcode") == Some(errorCode)
      ensures Dict.Get(r, "errmsg") == Some(Str(Message()))
      ensures Dict.Get(r, "original") == Some(Obj(original))
    {
      var r := [("errcode", errorCode), ("errmsg", Str(errorMsg)), ("original", Obj(original))];
      var tail := r[1..];
      assert tail[1..] == [("original", Obj(original))];
      assert Dict.Get(tail[1..], "original") == Some(Obj(original));
      assert tail[0].0 != "original";
      assert Dict.Get(tail, "original") == Some(Obj(original));
      r
    }
  }

  // ---------------------------------------------------------------------
  // The article

  /** `thumb_media_id and thumb_media_id.strip()` */
  predicate HasThumb(thumb: string) {
    thumb != "" && Strip(thumb) != ""
  }

  /** The article before the optional cover image. */
  function BaseArticle(title: string, author: string, digest: string, content: string,
                       sourceUrl: string, needOpenComment: int, onlyFansCanComment: int): (r: JsonObject)
    ensures !Dict.HasKey(r, "thumb_media_id")
  {
    var r := [("title", Str(title)), ("author", Str(author)), ("digest", Str(digest)),
              ("content", Str(content)), ("content_source_url", Str(sourceUrl)),
              ("need_open_comment", Num(needOpenComment)),
              ("only_fans_can_comment", Num(onlyFansCanComment))];
    assert forall i :: 0 <= i < |r| ==> r[i].0 != "thumb_media_id" by {
      assert r[0].0[0] == 't' && r[0].0 != "thumb_media_id";
      assert r[1].0[0] == 'a' && r[2].0[0] == 'd' && r[3].0[0] == 'c' && r[4].0[0] == 'c';
      assert r[5].0[0] == 'n' && r[6].0[0] == 'o';
    }
    r
  }

  /** The article a draft is sent with: the seven fields in order, and the
      cover image last when it is not blank. */
  function ArticleOf(title: string, author: string, digest: string, content: string,
                     sourceUrl: string, thumb: string, needOpenComment: int, onlyFansCanComment: int): JsonObject {
    BaseArticle(title, author, digest, content, sourceUrl, needOpenComment, onlyFansCanComment) +
      (if HasThumb(thumb) then [("thumb_media_id", Str(thumb))] else [])
  }

  /** Article construction: the dictionary is built, then the cover image
      is assigned into it when there is one. */
  method BuildArticle(title: string, author: string, digest: string, content: string,
                      sourceUrl: string, thumb: string, needOpenComment: int, onlyFansCanComment: int)
    returns (article: JsonObject)
    ensures article == ArticleOf(title, author, digest, content, sourceUrl, thumb, needOpenComment, onlyFansCanComment)
  {
    article := BaseArticle(title, author, digest, content, sourceUrl, needOpenComment, onlyFansCanComment);
    if thumb != "" && Strip(thumb) != "" {
      article := Dict.Set(article, "thumb_media_id", Str(thumb));
    }
  }

  /** The article has a `thumb_media_id` exactly when the value is not
      blank, and then it holds the value as given, unstripped. */
  lemma ArticleThumb(title: string, author: string, digest: string, content: string,
                     sourceUrl: string, thumb: string, needOpenComment: int, onlyFansCanComment: int)
    ensures var a := ArticleOf(title, author, digest, content, sourceUrl, thumb, needOpenComment, onlyFansCanComment);
      (Dict.HasKey(a, "thumb_media_id") <==> Strip(thumb) != "") &&
      (Strip(thumb) != "" ==> Dict.Get(a, "thumb_media_id") == Some(Str(thumb)))
  {
    var base := BaseArticle(title, author, digest, content, sourceUrl, needOpenComment, onlyFansCanComment);
    var a := ArticleOf(title, author, digest, content, sourceUrl, thumb, needOpenComment, onlyFansCanComment);
    if Strip(thumb) != "" {
      assert thumb != "";
      assert a[7] == ("thumb_media_id", Str(thumb));
      Dict.SetGet(base, "thumb_media_id", Str(thumb));
    } else {
      assert a == base;
    }
  }

  // ---------------------------------------------------------------------
  // The two draft operations

  /** What an HTTP call gives: the decoded reply, or the text of the
      exception it raised. */
  datatype Reply = Replied(body: JsonObject) | Broke(text: string)

  /** How an operation ends: with a value, by raising `WeChatError` with
      these constructor arguments, or by raising any other exception. */
  datatype Outcome =
    | Done(value: Json)
    | Raise(code: Json, msg: string, original: Option<JsonObject>)
    | Crash(text: string)

  /** `'errcode' in result and result['errcode'] != 0` */
  predicate Failed(body: JsonObject) {
    Dict.Get(body, "errcode").Some? && Dict.Get(body, "errcode").value != Num(0)
  }

  /** `result.get('errmsg', 'Unknown error')` */
  function ErrMsg(body: JsonObject): string {
    var m := Dict.Get(body, "errmsg");
    if m.Some? && m.value.Str? then m.value.s else "Unknown error"
  }

  /** `get_access_token`: a failed reply raises with the friendly message;
      a reply without a token raises `KeyError`. */
  function GetAccessToken(reply: Reply): Outcome {
    match reply
    case Broke(text) => Crash(text)
    case Replied(body) =>
      if Failed(body) then
        Raise(Dict.Get(body, "errcode").value, ErrorMessage(Dict.Get(body, "errcode").value, ErrMsg(body)), Some(body))
      else match Dict.Get(body, "access_token")
        case Some(token) => Done(token)
        case None => Crash("'access_token'")
  }

  /** The tail of both operations: `WeChatError` is re-raised as it is,
      any other exception becomes a `WeChatError` with code 500. */
  function Guarded(o: Outcome): (r: Outcome)
    ensures !r.Crash?
  {
    match o
    case Crash(text) => Raise(Num(500), "发送到微信草稿箱失败: " + text, None)
    case _ => o
  }

  /** The draft upload: a failed reply raises with WeChat's own message. */
  function Upload(reply: Reply): Outcome {
    match reply
    case Broke(text) => Crash(text)
    case Replied(body) =>
      if Failed(body) then Raise(Dict.Get(body, "errcode").value, ErrMsg(body), Some(body))
      else Done(Obj(body))
  }

  /** The body of the upload request. */
  function Articles(article: JsonObject): JsonObject {
    [("articles", List([Obj(article)]))]
  }

  /** `send_content_to_draft`; `post` is the upload, given the token and the
      request body. */
  function SendContentToDraft(req: DirectDraftRequest, post: (string, JsonObject) -> Reply): Outcome {
    if req.accessToken == "" then Raise(Num(400), "缺少access_token", None)
    else
      var article := ArticleOf(req.title, req.author, req.digest, req.content, req.contentSourceUrl,
                               req.thumbMediaId, req.needOpenComment, req.onlyFansCanComment);
      Guarded(Upload(post(req.accessToken, Articles(article))))
  }

  /** The HTML a draft is sent with: a known theme is rendered in light mode
      for WeChat, anything else gets the plain conversion, and the result is
      wrapped in `div.markdown-body`. */
  function DraftHtml(markdown: string, style: string, themes: seq<(string, Theme)>,
                     render: (string, Theme, string, string) -> string, convert: string -> string): string {
    var processed := MarkdownUtils.Preprocess(markdown);
    var html := match Dict.Get(themes, StyleName(style))
      case Some(theme) => render(processed, theme, "light-mode", "wechat")
      case None => convert(processed);
    "<div class=\"markdown-body\">" + html + "</div>"
  }

  /** `send_markdown_to_draft`; `token` is the token request's reply and
      `post` the upload. A missing theme table is the empty one. */
  function SendMarkdownToDraft(req: DraftRequest, themes: Option<seq<(string, Theme)>>,
                               render: (string, Theme, string, string) -> string, convert: string -> string,
                               token: Reply, post: (Json, JsonObject) -> Reply): Outcome {
    var known := if themes.Some? then themes.value else [];
    match GetAccessToken(token)
    case Done(accessToken) =>
      var title := MarkdownUtils.ExtractTitle(req.markdown);
      var html := DraftHtml(req.markdown, req.style, known, render, convert);
      var article := ArticleOf(title, req.author, req.digest, html, req.contentSourceUrl,
                               req.thumbMediaId, req.needOpenComment, req.onlyFansCanComment);
      Guarded(Upload(post(accessToken, Articles(article))))
    case other => Guarded(other)
  }

  /** An empty token is refused with 400 before any request is made: the
      outcome is the same whatever the upload would have done. */
  lemma EmptyTokenRefused(req: DirectDraftRequest, post: (string, JsonObject) -> Reply, post': (string, JsonObject) -> Reply)
    requires req.accessToken == ""
    ensures SendContentToDraft(req, post) == SendContentToDraft(req, post')
    ensures SendContentToDraft(req, post) == Raise(Num(400), "缺少access_token", None)
  {
  }

  /** Both operations end with a value or a `WeChatError`: another
      exception becomes code 500 with its text in the message, and a
      `WeChatError` is passed on unchanged. */
  lemma OnlyWeChatErrors(req: DraftRequest, direct: DirectDraftRequest, themes: Option<seq<(string, Theme)>>,
                         render: (string, Theme, string, string) -> string, convert: string -> string,
                         token: Reply, post: (Json, JsonObject) -> Reply, post': (string, JsonObject) -> Reply)
    ensures !SendMarkdownToDraft(req, themes, render, convert, token, post).Crash?
    ensures !SendContentToDraft(direct, post').Crash?
    ensures token.Broke? ==>
      SendMarkdownToDraft(req, themes, render, convert, token, post) == Raise(Num(500), "发送到微信草稿箱失败: " + token.text, None)
    ensures GetAccessToken(token).Raise? ==>
      SendMarkdownToDraft(req, themes, render, convert, token, post) == GetAccessToken(token)
  {
  }

  /** A reply is an error exactly when it has an `errcode` other than 0; a
      token error carries the friendly message, an upload error WeChat's
      own, and both keep the reply. */
  lemma ReplyErrors(body: JsonObject)
    ensures Failed(body) ==>
      GetAccessToken(Replied(body)) ==
        Raise(Dict.Get(body, "errcode").value, ErrorMessage(Dict.Get(body, "errcode").value, ErrMsg(body)), Some(body)) &&
      Upload(Replied(body)) == Raise(Dict.Get(body, "errcode").value, ErrMsg(body), Some(body))
    ensures Dict.Get(body, "errcode") == Some(Num(0)) || !Dict.HasKey(body, "errcode") ==>
      !GetAccessToken(Replied(body)).Raise? && Upload(Replied(body)) == Done(Obj(body))
  {
  }

  /** A style and its file name select the same theme, and the HTML is
      always inside `div.markdown-body`. */
  lemma DraftHtmlStyle(markdown: string, key: string, themes: seq<(string, Theme)>,
                       render: (string, Theme, string, string) -> string, convert: string -> string)
    requires '.' !in key
    ensures DraftHtml(markdown, key + ".css", themes, render, convert) == DraftHtml(markdown, key, themes, render, convert)
    ensures var h := DraftHtml(markdown, key, themes, render, convert);
      StartsWith(h, "<div class=\"markdown-body\">") && EndsWith(h, "</div>")
  {
    StyleNameOfFile(key, key);
    assert !EndsWith(key, ".css") by {
      assert |key| >= 4 ==> key[|key| - 4..][0] == key[|key| - 4] && key[|key| - 4] != '.';
    }
    var h := DraftHtml(markdown, key, themes, render, convert);
    var open := "<div class=\"markdown-body\">";
    assert h[..|open|] == open;
    assert h[|h| - 6..] == "</div>";
  }

  /** A request with only its required fields sends the seven-field article
      with empty author, digest and source and comments open, and no cover
      image. */
  lemma DefaultRequestArticle(appid: string, secret: string, markdown: string, title: string, html: string)
    ensures var r := NewDraftRequest(appid, secret, markdown);
      ArticleOf(title, r.author, r.digest, html, r.contentSourceUrl, r.thumbMediaId, r.needOpenComment, r.onlyFansCanComment) ==
        [("title", Str(title)), ("author", Str("")), ("digest", Str("")), ("content", Str(html)),
         ("content_source_url", Str("")), ("need_open_comment", Num(1)), ("only_fans_can_comment", Num(1))]
  {
  }
}
