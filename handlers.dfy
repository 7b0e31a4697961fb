/**
 * The two chat handlers of handlers/start.py: `cmd_start`, which registers a
 * user on `/start`, and `handle_photo`, which runs a search for a photo.
 *
 * What a handler does to the outside world is returned as a trace of
 * effects in the order they happen: messages sent or edited, and the calls
 * to the chat API and to the search. The chat API is a parameter (`Bot`).
 * An exception that escapes a handler ends the trace where it is raised.
 */
module Handlers {
  import opened Wrappers
  import opened Imaging
  import opened Selection
  import opened SearchClient
  import opened Users
  import opened Rendering

  const WELCOME_TEXT :=
    "👋 <b>Привет! Я AniSearch Bot</b>\n\n" +
    "🔍 Отправь мне скриншот из аниме, и я попробую найти:\n" +
    "• Название аниме\n" +
    "• Номер эпизода\n" +
    "• Точное время сцены\n\n" +
    "📸 Просто отправь картинку и подожди немного!"
  const BLOCKED_TEXT := "❌ Вы заблокированы в боте"
  const SEARCHING_TEXT := "🔍 Ищу аниме по изображению..."
  const TOO_LARGE_TEXT :=
    "❌ Изображение слишком большое.\n" +
    "Попробуйте отправить изображение меньшего размера."
  const NOT_FOUND_TEXT :=
    "😔 К сожалению, не удалось найти это аниме.\n" +
    "Возможные причины:\n" +
    "• Изображение слишком большое\n" +
    "• Плохое качество кадра\n" +
    "• Аниме отсутствует в базе\n\n" +
    "Попробуйте отправить другой кадр!"
  const ERROR_TEXT :=
    "❌ Произошла ошибка при поиске.\n" +
    "Попробуйте еще раз позже."

  /** Files above this size are refused before download. */
  const MAX_FILE_SIZE := 20 * MIB

  /** One externally visible step of a handler. */
  datatype Effect =
    | Send(text: string)        // a new message to the user
    | EditStatus(text: string)  // the "searching" message replaced by `text`
    | GetFile(fileId: string)
    | Download(path: string)
    | Search(image: Bytes)

  /** One resolution variant of a photo, smallest first as the chat API lists them. */
  datatype PhotoSize = PhotoSize(fileId: string)

  /** `get_file`'s answer: the reported size (may be missing) and the download path. */
  datatype TelegramFile = TelegramFile(size: Option<int>, path: string)

  datatype PhotoMessage = PhotoMessage(fromId: int, date: Timestamp, photo: seq<PhotoSize>)

  /** The collaborators of `handle_photo`; each returns `None` when it raises. */
  datatype Bot = Bot(
    getFile: string -> Option<TelegramFile>,
    download: string -> Option<Bytes>,
    lib: Library,
    post: (Transfer, Bytes) -> Outcome,
    formatPercent: real -> string)

  /** The table after `/start`: the user is added when absent and the insert succeeds, otherwise nothing changes. */
  function StartTransition(t: Table, uid: int, username: Option<string>, now: Timestamp): (r: Table)
    ensures uid in t.rows ==> r == t
    ensures uid !in t.rows && !UsernameFits(username) ==> r == t
    ensures uid !in t.rows && UsernameFits(username) ==>
      && r.rows.Keys == t.rows.Keys + {uid}
      && r.rows[uid].uid == uid && r.rows[uid].username == username && !r.rows[uid].isBlocked
      && r.rows[uid].registeredAt == now && r.rows[uid].lastActive == now
      && (forall v :: v in t.rows ==> r.rows[v] == t.rows[v])
    ensures WellFormed(t) ==> WellFormed(r) && |t.rows| <= |r.rows| <= |t.rows| + 1
  {
    if uid in t.rows then t
    else
      match Insert(t, uid, username, now)
      case Success(grown) => grown
      case Failure(_) => t
  }

  /** What `cmd_start` shows: the welcome, unless creating the record raised. */
  function StartEffects(t: Table, uid: int, username: Option<string>): (effects: seq<Effect>)
    ensures effects == [] || effects == [Send(WELCOME_TEXT)]
    ensures forall now :: effects == [] <==> uid !in t.rows && Insert(t, uid, username, now).Failure?
  {
    if uid in t.rows || UsernameFits(username) then [Send(WELCOME_TEXT)] else []
  }

  /** A second `/start` from the same user changes nothing. */
  lemma {:induction false} StartIdempotent(t: Table, uid: int, username: Option<string>, now: Timestamp, later: Timestamp)
    requires WellFormed(t)
    ensures
      var once := StartTransition(t, uid, username, now);
      StartTransition(once, uid, username, later) == once
  {
    var once := StartTransition(t, uid, username, now);
    if uid !in t.rows {
      match Insert(t, uid, username, now)
      case Success(grown) =>
        assert uid in grown.rows;
      case Failure(_) =>
        assert once == t;
    }
  }

  /** `cmd_start`: look the user up, create the record if absent, welcome. */
  method CmdStart(reg: Registry, uid: int, username: Option<string>, now: Timestamp) returns (effects: seq<Effect>)
    requires reg.Valid()
    modifies reg
    ensures reg.Valid()
    ensures reg.State() == StartTransition(old(reg.State()), uid, username, now)
    ensures effects == StartEffects(old(reg.State()), uid, username)
  {
    var existing := reg.GetOrNone(uid);
    if existing.None? {
      var created := reg.Create(uid, username, now);
      if created.Failure? {
        return [];
      }
    }
    effects := [Send(WELCOME_TEXT)];
  }

  /**
   * The variant searched: the next-to-largest when there are several, the
   * only one otherwise; `None` for an empty list, where indexing raises.
   */
  function ChosenPhoto(photos: seq<PhotoSize>): (p: Option<PhotoSize>)
    ensures p.Some? <==> |photos| > 0
    ensures |photos| > 1 ==> p == Some(photos[|photos| - 2])
    ensures |photos| == 1 ==> p == Some(photos[0])
  {
    if |photos| > 1 then Some(photos[|photos| - 2])
    else if |photos| == 1 then Some(photos[0])
    else None
  }

  /**
   * The download gate: a reported size above 20 MiB refuses the file. A
   * missing size (or a zero one, which is falsy) lets it through.
   */
  predicate OverSizeLimit(size: Option<int>): (over: bool)
    ensures over <==> size.Some? && size.value > MAX_FILE_SIZE
    ensures size.None? ==> !over
  {
    size.Some? && size.value != 0 && size.value > MAX_FILE_SIZE
  }

  /** The final text of the status message once the search has answered. */
  function ResultText(results: Option<seq<Candidate>>, bot: Bot): (text: string)
    ensures results.None? || results.value == [] ==> text == NOT_FOUND_TEXT
    ensures results.Some? && results.value != [] && results.value[0].similarity.None? ==> text == ERROR_TEXT
    ensures results.Some? && results.value != [] && results.value[0].similarity.Some? ==>
      var card := BuildCard(results.value[0]).value;
      text == CardText(card, bot.formatPercent(card.similarity))
  {
    if results.None? || results.value == [] then NOT_FOUND_TEXT
    else
      match BuildCard(results.value[0])
      case None => ERROR_TEXT
      case Some(card) => CardText(card, bot.formatPercent(card.similarity))
  }

  /** The `try` block of `handle_photo`, after the "searching" message was sent. */
  function SearchEffects(photos: seq<PhotoSize>, bot: Bot): (effects: seq<Effect>)
    ensures |effects| > 0 && effects[|effects| - 1].EditStatus?
    ensures forall i :: 0 <= i < |effects| - 1 ==> !effects[i].EditStatus? && !effects[i].Send?
  {
    match ChosenPhoto(photos)
    case None => [EditStatus(ERROR_TEXT)]
    case Some(photo) =>
      match bot.getFile(photo.fileId)
      case None => [GetFile(photo.fileId), EditStatus(ERROR_TEXT)]
      case Some(file) =>
        if OverSizeLimit(file.size) then [GetFile(photo.fileId), EditStatus(TOO_LARGE_TEXT)]
        else
          match bot.download(file.path)
          case None => [GetFile(photo.fileId), Download(file.path), EditStatus(ERROR_TEXT)]
          case Some(image) =>
            [GetFile(photo.fileId), Download(file.path), Search(image),
             EditStatus(ResultText(SearchAnime(image, bot.lib, bot.post), bot))]
  }

  /**
   * Everything `handle_photo` shows and calls, given the table before it
   * runs: nothing for an unknown user (the strict lookup raises), the
   * rejection for a blocked one, otherwise the "searching" message followed
   * by the search.
   */
  function PhotoEffects(t: Table, msg: PhotoMessage, bot: Bot): (effects: seq<Effect>)
    ensures effects == [] <==> msg.fromId !in t.rows
    ensures |effects| <= 5
    ensures effects != [] ==> effects[0].Send?
  {
    if msg.fromId !in t.rows then []
    else if t.rows[msg.fromId].isBlocked then [Send(BLOCKED_TEXT)]
    else [Send(SEARCHING_TEXT)] + SearchEffects(msg.photo, bot)
  }

  /** A blocked user gets the rejection only: no download and no search. */
  lemma BlockedUserNeverSearched(t: Table, msg: PhotoMessage, bot: Bot)
    requires msg.fromId in t.rows && t.rows[msg.fromId].isBlocked
    ensures PhotoEffects(t, msg, bot) == [Send(BLOCKED_TEXT)]
    ensures forall e :: e in PhotoEffects(t, msg, bot) ==> !e.Search? && !e.Download? && !e.GetFile?
  {
  }

  /** A reported size above 20 MiB ends the request after `get_file`, before any download or search. */
  lemma SizeGateBeforeDownload(t: Table, msg: PhotoMessage, bot: Bot)
    requires msg.fromId in t.rows && !t.rows[msg.fromId].isBlocked
    requires ChosenPhoto(msg.photo).Some?
    requires bot.getFile(ChosenPhoto(msg.photo).value.fileId).Some?
    requires OverSizeLimit(bot.getFile(ChosenPhoto(msg.photo).value.fileId).value.size)
    ensures PhotoEffects(t, msg, bot) ==
      [Send(SEARCHING_TEXT), GetFile(ChosenPhoto(msg.photo).value.fileId), EditStatus(TOO_LARGE_TEXT)]
  {
  }

  /**
   * A search happens only for a registered, unblocked user whose chosen photo
   * is within the size limit, and it is given exactly the downloaded bytes.
   */
  lemma SearchOnlyPastTheGates(t: Table, msg: PhotoMessage, bot: Bot, image: Bytes)
    requires Search(image) in PhotoEffects(t, msg, bot)
    ensures msg.fromId in t.rows && !t.rows[msg.fromId].isBlocked
    ensures ChosenPhoto(msg.photo).Some?
    ensures var file := bot.getFile(ChosenPhoto(msg.photo).value.fileId);
      file.Some? && !OverSizeLimit(file.value.size) && bot.download(file.value.path) == Some(image)
  {
  }

  /**
   * The caught exceptions of the `try` block: with no photo variant, a
   * failing file lookup or a failing download, the status message ends with
   * the error text and no search is made.
   */
  lemma {:induction false} FailuresEndInErrorText(t: Table, msg: PhotoMessage, bot: Bot)
    requires msg.fromId in t.rows && !t.rows[msg.fromId].isBlocked
    requires
      || ChosenPhoto(msg.photo).None?
      || bot.getFile(ChosenPhoto(msg.photo).value.fileId).None?
      || (var file := bot.getFile(ChosenPhoto(msg.photo).value.fileId).value;
          !OverSizeLimit(file.size) && bot.download(file.path).None?)
    ensures var effects := PhotoEffects(t, msg, bot);
      && effects[|effects| - 1] == EditStatus(ERROR_TEXT)
      && forall e :: e in effects ==> !e.Search?
  {
    var effects := PhotoEffects(t, msg, bot);
    var rest := SearchEffects(msg.photo, bot);
    assert effects == [Send(SEARCHING_TEXT)] + rest;
    if ChosenPhoto(msg.photo).Some? {
      var photo := ChosenPhoto(msg.photo).value;
      if bot.getFile(photo.fileId).Some? {
        var file := bot.getFile(photo.fileId).value;
        assert rest == [GetFile(photo.fileId), Download(file.path), EditStatus(ERROR_TEXT)];
      }
    }
  }

  /**
   * The converse of SearchOnlyPastTheGates: a registered, unblocked user
   * whose chosen variant is within the limit and downloads gets a search on
   * exactly those bytes.
   */
  lemma {:induction false} GatesPassedSearches(t: Table, msg: PhotoMessage, bot: Bot, image: Bytes)
    requires msg.fromId in t.rows && !t.rows[msg.fromId].isBlocked
    requires ChosenPhoto(msg.photo).Some?
    requires bot.getFile(ChosenPhoto(msg.photo).value.fileId).Some?
    requires var file := bot.getFile(ChosenPhoto(msg.photo).value.fileId).value;
      !OverSizeLimit(file.size) && bot.download(file.path) == Some(image)
    ensures Search(image) in PhotoEffects(t, msg, bot)
  {
    var photo := ChosenPhoto(msg.photo).value;
    var file := bot.getFile(photo.fileId).value;
    var rest := SearchEffects(msg.photo, bot);
    assert rest[2] == Search(image);
    assert PhotoEffects(t, msg, bot)[3] == Search(image);
  }

  /**
   * For a registered, unblocked user the "searching" message is sent first
   * and edited exactly once, as the last effect: every outcome, including
   * every caught exception, ends in one final text.
   */
  lemma {:induction false} StatusResolvedOnce(t: Table, msg: PhotoMessage, bot: Bot)
    requires msg.fromId in t.rows && !t.rows[msg.fromId].isBlocked
    ensures var effects := PhotoEffects(t, msg, bot);
      && 2 <= |effects|
      && effects[0] == Send(SEARCHING_TEXT)
      && effects[|effects| - 1].EditStatus?
      && forall i :: 0 < i < |effects| - 1 ==> !effects[i].EditStatus? && !effects[i].Send?
  {
    var rest := SearchEffects(msg.photo, bot);
    var effects := PhotoEffects(t, msg, bot);
    assert effects == [Send(SEARCHING_TEXT)] + rest;
    forall i | 0 < i < |effects| - 1
      ensures !effects[i].EditStatus? && !effects[i].Send?
    {
      assert effects[i] == rest[i - 1];
    }
  }

  /** A search that found something shows the card built from its first candidate only. */
  lemma FoundShowsFirstCandidate(results: seq<Candidate>, bot: Bot)
    requires results != [] && results[0].similarity.Some?
    ensures var card := BuildCard(results[0]).value;
      ResultText(Some(results), bot) == CardText(card, bot.formatPercent(card.similarity))
  {
  }

  /**
   * When a search is made, the status message ends with the text for what
   * the search returned: the card of the first selected candidate, the
   * "not found" text, or the error text.
   */
  lemma {:induction false} SearchDecidesFinalText(t: Table, msg: PhotoMessage, bot: Bot, image: Bytes)
    requires Search(image) in PhotoEffects(t, msg, bot)
    ensures var effects := PhotoEffects(t, msg, bot);
      effects[|effects| - 1] == EditStatus(ResultText(SearchAnime(image, bot.lib, bot.post), bot))
  {
    SearchOnlyPastTheGates(t, msg, bot, image);
    var file := bot.getFile(ChosenPhoto(msg.photo).value.fileId).value;
    assert bot.download(file.path) == Some(image);
  }

  /**
   * The end-to-end fixture: a registered, unblocked user's photo whose
   * search returns the candidate with similarity 0.95, episode 3, offsets
   * 120.4 to 126.8 and romaji title "Test Anime" ends with a message that
   * shows that title, episode `3` and the time `02:00 - 02:06`.
   */
  lemma FixtureMessage(t: Table, msg: PhotoMessage, bot: Bot, image: Bytes)
    requires msg.fromId in t.rows && !t.rows[msg.fromId].isBlocked
    requires Search(image) in PhotoEffects(t, msg, bot)
    requires SearchAnime(image, bot.lib, bot.post) == Some([Fixture()])
    ensures var effects := PhotoEffects(t, msg, bot);
      effects[|effects| - 1] == EditStatus(
        FOUND_HEADER + (
          TITLE_LABEL + "Test Anime" + "\n" +
          EPISODE_LABEL + "3" + "\n" +
          TIME_LABEL + "02:00 - 02:06" + "\n" +
          PERCENT_LABEL + bot.formatPercent(0.95) + "%"))
  {
    SearchDecidesFinalText(t, msg, bot, image);
    var percent := bot.formatPercent(0.95);
    FixtureText(percent);
    assert ResultText(Some([Fixture()]), bot) == CardText(BuildCard(Fixture()).value, percent);
  }

  /**
   * `handle_photo`: touch the activity time, look the user up (raising for
   * an unknown one), check the block flag, then, inside the `try`, choose a
   * variant, check its size, download it, search, and replace the status
   * text with the outcome.
   */
  method HandlePhoto(reg: Registry, msg: PhotoMessage, bot: Bot) returns (effects: seq<Effect>)
    requires reg.Valid()
    modifies reg
    ensures reg.Valid()
    ensures reg.State() == Touch(old(reg.State()), msg.fromId, msg.date)
    ensures effects == PhotoEffects(old(reg.State()), msg, bot)
  {
    ghost var before := reg.State();
    var touched := reg.UpdateLastActive(msg.fromId, msg.date);
    var user := reg.Get(msg.fromId);
    if user.Failure? {
      return [];
    }
    if user.value.isBlocked {
      return [Send(BLOCKED_TEXT)];
    }
    assert PhotoEffects(before, msg, bot) == [Send(SEARCHING_TEXT)] + SearchEffects(msg.photo, bot);
    var photos := msg.photo;
    var trace: seq<Effect>;
    if |photos| == 0 {
      trace := [EditStatus(ERROR_TEXT)];
    } else {
      var photo := if |photos| > 1 then photos[|photos| - 2] else photos[|photos| - 1];
      assert ChosenPhoto(photos) == Some(photo);
      var file := bot.getFile(photo.fileId);
      if file.None? {
        trace := [GetFile(photo.fileId), EditStatus(ERROR_TEXT)];
      } else if OverSizeLimit(file.value.size) {
        trace := [GetFile(photo.fileId), EditStatus(TOO_LARGE_TEXT)];
      } else {
        var image := bot.download(file.value.path);
        if image.None? {
          trace := [GetFile(photo.fileId), Download(file.value.path), EditStatus(ERROR_TEXT)];
        } else {
          var results := SearchAnime(image.value, bot.lib, bot.post);
          var text := ResultText(results, bot);
          trace := [GetFile(photo.fileId), Download(file.value.path), Search(image.value), EditStatus(text)];
        }
      }
    }
    assert trace == SearchEffects(photos, bot);
    effects := [Send(SEARCHING_TEXT)] + trace;
  }
}
