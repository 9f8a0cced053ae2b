/**
 Message archives: an index of messages, their senders and the attached files, built in one pass
 over the messages and then packed into named entries from which each attachment is read back.
 */
module Archive {
  import opened Wrappers
  import Groups

  type Uid = int
  type Mid = int
  type Bytes = seq<bv8>

  datatype Target = ToUser(uid: Uid) | ToGroup(gid: Groups.Gid)

  datatype Message = Message(
    from: Uid, target: Target, createdAt: int,
    properties: Option<string>, contentType: string, content: string)

  datatype User = User(name: string, isAdmin: bool)
  datatype FileMeta = FileMeta(contentType: string, filename: Option<string>)

  /** What the server has: messages, users, groups, and the files by sender or by path. */
  datatype Server = Server(
    messages: map<Mid, Message>,
    users: map<Uid, User>,
    groups: map<Groups.Gid, Groups.Group>,
    avatars: map<Uid, Bytes>,
    uploads: map<string, Bytes>,
    thumbnails: map<string, Bytes>,
    metas: map<string, FileMeta>)

  datatype File = File(contentType: string, filename: Option<string>, content: Bytes)
  datatype ArchiveUser = ArchiveUser(name: string, avatar: Option<nat>)
  datatype ArchiveMessage = ArchiveMessage(
    fromUser: nat, createdAt: int, mid: Mid, source: Target,
    properties: Option<string>, contentType: string, content: Option<string>,
    fileId: Option<nat>, thumbnailId: Option<nat>)
  datatype Archive = Archive(users: seq<ArchiveUser>, messages: seq<ArchiveMessage>, numAttachments: nat)

  datatype Error = BadRequest | NotFound | Forbidden

  // ---- what belongs into an archive ----

  predicate IsText(contentType: string) {
    contentType == "text/plain" || contentType == "text/markdown" || contentType == "application/vnd.vocechat.e2ee.v2"
  }

  predicate IsFile(contentType: string) {
    contentType == "vocechat/file"
  }

  predicate MayRead(s: Server, m: Message, uid: Uid) {
    match m.target
    case ToUser(u) => u == uid || m.from == uid
    case ToGroup(gid) => gid in s.groups && s.groups[gid].ContainsUser(uid)
  }

  /** Why message `mid` cannot go into an archive made by `uid`. */
  function Problem(s: Server, uid: Uid, mid: Mid): Option<Error>
    requires uid in s.users
  {
    if mid !in s.messages then Some(NotFound)
    else
      var m := s.messages[mid];
      if !s.users[uid].isAdmin && !MayRead(s, m, uid) then Some(Forbidden)
      else if m.from !in s.users then Some(BadRequest)
      else if !IsText(m.contentType) && !IsFile(m.contentType) then Some(BadRequest)
      else None
  }

  /** For a direct message to the maker of the archive the source is its sender. */
  function GetSource(uid: Uid, m: Message): Target {
    match m.target
    case ToUser(u) => if u == uid then ToUser(m.from) else ToUser(u)
    case ToGroup(_) => m.target
  }

  function MetaOf(s: Server, path: string): FileMeta {
    if path in s.metas then s.metas[path] else FileMeta("application/octet-stream", None)
  }

  /** A file that cannot be read counts as empty. */
  function UploadOf(s: Server, path: string): File {
    File(MetaOf(s, path).contentType, MetaOf(s, path).filename, if path in s.uploads then s.uploads[path] else [])
  }

  function ThumbnailOf(s: Server, path: string): Option<File> {
    if path !in s.thumbnails then None
    else Some(File(MetaOf(s, path).contentType, MetaOf(s, path).filename, s.thumbnails[path]))
  }

  function AvatarOf(s: Server, uid: Uid): Option<File> {
    if uid in s.avatars then Some(File("image/png", None, s.avatars[uid])) else None
  }

  // ---- the finished index, item by item ----

  /** An optional index resolves to an optional file. */
  predicate Resolves(files: seq<File>, index: Option<nat>, file: Option<File>) {
    match (index, file)
    case (None, None) => true
    case (Some(k), Some(f)) => k < |files| && files[k] == f
    case _ => false
  }

  predicate UserEntry(s: Server, files: seq<File>, u: ArchiveUser, uid: Uid) {
    uid in s.users && u.name == s.users[uid].name && Resolves(files, u.avatar, AvatarOf(s, uid))
  }

  /** Everything an entry says of its message apart from who sent it. */
  predicate MessageEntry(s: Server, uid: Uid, files: seq<File>, e: ArchiveMessage, mid: Mid) {
    && e.mid == mid && mid in s.messages
    && var m := s.messages[mid];
       && e.createdAt == m.createdAt && e.source == GetSource(uid, m)
       && e.properties == m.properties && e.contentType == m.contentType
       && (IsText(m.contentType) || IsFile(m.contentType))
       && e.content == (if IsText(m.contentType) then Some(m.content) else None)
       && Resolves(files, e.fileId, if IsText(m.contentType) then None else Some(UploadOf(s, m.content)))
       && Resolves(files, e.thumbnailId, if IsText(m.contentType) then None else ThumbnailOf(s, m.content))
  }

  /** The items that can point to a file. */
  datatype Ref = UserAvatar(user: nat) | MessageFile(message: nat) | MessageThumbnail(message: nat)

  function RefOf(users: seq<ArchiveUser>, messages: seq<ArchiveMessage>, r: Ref): Option<nat> {
    match r
    case UserAvatar(i) => if i < |users| then users[i].avatar else None
    case MessageFile(i) => if i < |messages| then messages[i].fileId else None
    case MessageThumbnail(i) => if i < |messages| then messages[i].thumbnailId else None
  }

  // ---- the index while it grows ----

  /** With the position given to each sender, and for each file the item that points to it. */
  datatype Draft = Draft(
    users: seq<ArchiveUser>, messages: seq<ArchiveMessage>, files: seq<File>,
    senders: map<Uid, nat>, owners: seq<Ref>)

  /** Files and the items that point to them correspond one to one. */
  ghost predicate Linked(d: Draft) {
    && |d.owners| == |d.files|
    && (forall k :: 0 <= k < |d.owners| ==> RefOf(d.users, d.messages, d.owners[k]) == Some(k))
    && (forall r :: RefOf(d.users, d.messages, r).Some? ==>
          RefOf(d.users, d.messages, r).value < |d.owners| && d.owners[RefOf(d.users, d.messages, r).value] == r)
  }

  /** Each sender met so far has an entry of its own. */
  predicate SendersAgree(s: Server, d: Draft) {
    && (forall u :: u in d.senders ==> d.senders[u] < |d.users| && UserEntry(s, d.files, d.users[d.senders[u]], u))
    && (forall u, v :: u in d.senders && v in d.senders && d.senders[u] == d.senders[v] ==> u == v)
  }

  predicate Used(d: Draft, user: nat) {
    exists i :: 0 <= i < |d.messages| && d.messages[i].fromUser == user
  }

  /** Every user entry but perhaps one sent a message of the index. */
  ghost predicate AllUsedBut(d: Draft, user: nat) {
    forall i: nat :: i < |d.users| && i != user ==> Used(d, i)
  }

  predicate MessagesAgree(s: Server, uid: Uid, mids: seq<Mid>, d: Draft) {
    && |d.messages| == |mids|
    && (forall i :: 0 <= i < |mids| ==> MessageEntry(s, uid, d.files, d.messages[i], mids[i]))
    && (forall i :: 0 <= i < |mids| ==>
          s.messages[mids[i]].from in d.senders && d.messages[i].fromUser == d.senders[s.messages[mids[i]].from])
  }

  function Listed<T>(x: Option<T>): seq<T> {
    if x.Some? then [x.value] else []
  }

  /** A new sender: its avatar, if there is one, and its entry. */
  function WithUser(s: Server, d: Draft, u: Uid): Draft
    requires u in s.users
  {
    var avatar := AvatarOf(s, u);
    Draft(d.users + [ArchiveUser(s.users[u].name, if avatar.Some? then Some(|d.files|) else None)],
          d.messages,
          d.files + Listed(avatar),
          d.senders[u := |d.users|],
          d.owners + if avatar.Some? then [UserAvatar(|d.users|)] else [])
  }

  function TextEntry(uid: Uid, mid: Mid, m: Message, user: nat): ArchiveMessage {
    ArchiveMessage(user, m.createdAt, mid, GetSource(uid, m), m.properties, m.contentType, Some(m.content), None, None)
  }

  function WithText(d: Draft, e: ArchiveMessage): Draft {
    d.(messages := d.messages + [e])
  }

  function FileEntry(uid: Uid, mid: Mid, m: Message, user: nat, file: nat, thumbnail: Option<nat>): ArchiveMessage {
    ArchiveMessage(user, m.createdAt, mid, GetSource(uid, m), m.properties, m.contentType, None, Some(file), thumbnail)
  }

  /** An uploaded file and its thumbnail, if there is one, follow the files so far. */
  function WithFile(d: Draft, uid: Uid, mid: Mid, m: Message, user: nat, file: File, thumbnail: Option<File>): Draft {
    d.(messages :=
      d.messages + [FileEntry(uid, mid, m, user, |d.files|, if thumbnail.Some? then Some(|d.files| + 1) else None)],
       files := d.files + [file] + Listed(thumbnail),
       owners :=
         d.owners + [MessageFile(|d.messages|)] + if thumbnail.Some? then [MessageThumbnail(|d.messages|)] else [])
  }

  // ---- growing keeps what was there ----

  lemma SameAfterGrowth(s: Server, uid: Uid, mids: seq<Mid>, d: Draft, more: seq<File>)
    ensures SendersAgree(s, d) ==> SendersAgree(s, d.(files := d.files + more))
    ensures MessagesAgree(s, uid, mids, d) ==> MessagesAgree(s, uid, mids, d.(files := d.files + more))
  {
    hide AvatarOf, UploadOf, ThumbnailOf, GetSource, IsText, IsFile;
  }

  lemma UserKeepsLinks(s: Server, d: Draft, u: Uid)
    requires Linked(d) && u in s.users
    ensures Linked(WithUser(s, d, u))
  {
    hide AvatarOf;
    var d' := WithUser(s, d, u);
    forall r | RefOf(d'.users, d'.messages, r).Some?
      ensures RefOf(d'.users, d'.messages, r).value < |d'.owners|
        && d'.owners[RefOf(d'.users, d'.messages, r).value] == r
    {
      assert r != UserAvatar(|d.users|) ==> RefOf(d'.users, d'.messages, r) == RefOf(d.users, d.messages, r);
    }
    forall k | 0 <= k < |d'.owners| ensures RefOf(d'.users, d'.messages, d'.owners[k]) == Some(k) {
      if k < |d.owners| { assert d'.owners[k] == d.owners[k] && d.owners[k] != UserAvatar(|d.users|); }
    }
  }

  lemma TextKeepsLinks(d: Draft, e: ArchiveMessage)
    requires Linked(d) && e.fileId.None? && e.thumbnailId.None?
    ensures Linked(WithText(d, e))
  {
    var d' := WithText(d, e);
    assert forall r :: RefOf(d'.users, d'.messages, r) == RefOf(d.users, d.messages, r);
  }

  lemma FileKeepsLinks(d: Draft, uid: Uid, mid: Mid, m: Message, user: nat, file: File, thumbnail: Option<File>)
    requires Linked(d)
    ensures Linked(WithFile(d, uid, mid, m, user, file, thumbnail))
  {
    hide GetSource;
    var d' := WithFile(d, uid, mid, m, user, file, thumbnail);
    var n := |d.messages|;
    forall r | RefOf(d'.users, d'.messages, r).Some?
      ensures RefOf(d'.users, d'.messages, r).value < |d'.owners|
        && d'.owners[RefOf(d'.users, d'.messages, r).value] == r
    {
      assert r != MessageFile(n) && r != MessageThumbnail(n) ==>
        RefOf(d'.users, d'.messages, r) == RefOf(d.users, d.messages, r);
    }
    forall k | 0 <= k < |d'.owners| ensures RefOf(d'.users, d'.messages, d'.owners[k]) == Some(k) {
      if k < |d.owners| {
        assert d'.owners[k] == d.owners[k] && d.owners[k] != MessageFile(n) && d.owners[k] != MessageThumbnail(n);
      }
    }
  }

  lemma UserKeepsEntries(s: Server, uid: Uid, mids: seq<Mid>, d: Draft, u: Uid)
    requires SendersAgree(s, d) && MessagesAgree(s, uid, mids, d) && u in s.users && u !in d.senders
    requires AllUsedBut(d, |d.users|)
    ensures SendersAgree(s, WithUser(s, d, u)) && MessagesAgree(s, uid, mids, WithUser(s, d, u))
    ensures AllUsedBut(WithUser(s, d, u), |d.users|)
  {
    SameAfterGrowth(s, uid, mids, d, Listed(AvatarOf(s, u)));
    var grown := d.(files := d.files + Listed(AvatarOf(s, u)));
    hide MessageEntry;
    var d' := WithUser(s, d, u);
    assert UserEntry(s, d'.files, d'.users[|d.users|], u);
    forall v | v in d.senders
      ensures d'.senders[v] == d.senders[v] && UserEntry(s, d'.files, d'.users[d'.senders[v]], v)
    {
      assert UserEntry(s, grown.files, grown.users[d.senders[v]], v);
    }
    forall i: nat | i < |d'.users| && i != |d.users| ensures Used(d', i) { assert Used(d, i); }
  }

  lemma EntryJoins(s: Server, uid: Uid, mids: seq<Mid>, d: Draft, e: ArchiveMessage, mid: Mid)
    requires SendersAgree(s, d) && MessagesAgree(s, uid, mids, d) && MessageEntry(s, uid, d.files, e, mid)
    requires s.messages[mid].from in d.senders && e.fromUser == d.senders[s.messages[mid].from]
      && AllUsedBut(d, e.fromUser)
    ensures SendersAgree(s, WithText(d, e)) && MessagesAgree(s, uid, mids + [mid], WithText(d, e))
    ensures AllUsedBut(WithText(d, e), |d.users|)
  {
    hide MessageEntry, UserEntry;
    var d' := WithText(d, e);
    forall i: nat | i < |d.users| ensures Used(d', i) {
      if i != e.fromUser {
        assert Used(d, i);
        var j :| 0 <= j < |d.messages| && d.messages[j].fromUser == i;
        assert d'.messages[j].fromUser == i;
      } else {
        assert d'.messages[|d.messages|].fromUser == i;
      }
    }
  }

  lemma FileJoins(s: Server, uid: Uid, mids: seq<Mid>, d: Draft, mid: Mid, user: nat)
    requires SendersAgree(s, d) && MessagesAgree(s, uid, mids, d)
    requires mid in s.messages && IsFile(s.messages[mid].contentType)
    requires s.messages[mid].from in d.senders && user == d.senders[s.messages[mid].from] && AllUsedBut(d, user)
    ensures var m := s.messages[mid];
      var d' := WithFile(d, uid, mid, m, user, UploadOf(s, m.content), ThumbnailOf(s, m.content));
      SendersAgree(s, d') && MessagesAgree(s, uid, mids + [mid], d') && AllUsedBut(d', |d.users|)
  {
    var m := s.messages[mid];
    var file, thumbnail := UploadOf(s, m.content), ThumbnailOf(s, m.content);
    var more := [file] + Listed(thumbnail);
    var grown := d.(files := d.files + more);
    SameAfterGrowth(s, uid, mids, d, more);
    assert d.files + [file] + Listed(thumbnail) == grown.files;
    var e := FileEntry(uid, mid, m, user, |d.files|, if thumbnail.Some? then Some(|d.files| + 1) else None);
    assert MessageEntry(s, uid, grown.files, e, mid) by { hide SendersAgree, MessagesAgree; }
    hide MessageEntry, UserEntry;
    assert AllUsedBut(grown, user) by { assert forall i: nat :: Used(d, i) ==> Used(grown, i); }
    EntryJoins(s, uid, mids, grown, e, mid);
    OwnersDoNotMatter(s, uid, mids + [mid], WithText(grown, e), WithFile(d, uid, mid, m, user, file, thumbnail));
  }

  lemma OwnersDoNotMatter(s: Server, uid: Uid, mids: seq<Mid>, d: Draft, d': Draft)
    requires SendersAgree(s, d) && MessagesAgree(s, uid, mids, d) && AllUsedBut(d, |d.users|)
    requires d' == d.(owners := d'.owners)
    ensures SendersAgree(s, d') && MessagesAgree(s, uid, mids, d') && AllUsedBut(d', |d.users|)
  {
    hide MessageEntry, UserEntry;
    assert forall i: nat :: Used(d, i) ==> Used(d', i);
  }

  // ---- the finished archive ----

  ghost predicate Owned(a: Archive, k: nat) {
    exists r :: RefOf(a.users, a.messages, r) == Some(k)
  }

  /** What an archive of `mids` must be. */
  ghost predicate Faithful(s: Server, uid: Uid, mids: seq<Mid>, a: Archive, files: seq<File>) {
    // one entry for each message, in order
    && |a.messages| == |mids|
    && (forall i :: 0 <= i < |mids| ==> MessageEntry(s, uid, files, a.messages[i], mids[i]))
    // each names its sender, and two of them share a user exactly if they share the sender
    && (forall i :: 0 <= i < |mids| ==>
          a.messages[i].fromUser < |a.users|
            && UserEntry(s, files, a.users[a.messages[i].fromUser], s.messages[mids[i]].from))
    && (forall i, j :: 0 <= i < |mids| && 0 <= j < |mids| ==>
          (a.messages[i].fromUser == a.messages[j].fromUser <==> s.messages[mids[i]].from == s.messages[mids[j]].from))
    && (forall i: nat :: i < |a.users| ==> Used(Draft(a.users, a.messages, files, map[], []), i))
    // each file belongs to exactly one item
    && a.numAttachments == |files|
    && (forall k: nat :: k < |files| ==> Owned(a, k))
    && (forall r :: RefOf(a.users, a.messages, r).Some? ==> RefOf(a.users, a.messages, r).value < |files|)
    && (forall q, r ::
      RefOf(a.users, a.messages, q).Some? && RefOf(a.users, a.messages, q) == RefOf(a.users, a.messages, r) ==> q == r)
  }

  lemma DraftIsFaithful(s: Server, uid: Uid, mids: seq<Mid>, d: Draft)
    requires Linked(d) && SendersAgree(s, d) && MessagesAgree(s, uid, mids, d) && AllUsedBut(d, |d.users|)
    ensures Faithful(s, uid, mids, Archive(d.users, d.messages, |d.files|), d.files)
  {
    assert forall i :: 0 <= i < |mids| ==>
      MessageEntry(s, uid, d.files, d.messages[i], mids[i]) && mids[i] in s.messages;
    hide MessageEntry, UserEntry, RefOf;
    var a := Archive(d.users, d.messages, |d.files|);
    forall k: nat | k < |d.files| ensures Owned(a, k) { assert RefOf(a.users, a.messages, d.owners[k]) == Some(k); }
    var bare := Draft(a.users, a.messages, d.files, map[], []);
    assert forall i: nat :: Used(d, i) ==> Used(bare, i);
  }

  // ---- the order of the messages, and the first one that does not fit ----

  function Insert(x: Mid, list: seq<Mid>): seq<Mid> {
    if list == [] || x <= list[0] then [x] + list else [list[0]] + Insert(x, list[1..])
  }

  function Sorted(list: seq<Mid>): seq<Mid> {
    if list == [] then [] else Insert(list[0], Sorted(list[1..]))
  }

  predicate Ascending(list: seq<Mid>) {
    forall i, j :: 0 <= i < j < |list| ==> list[i] <= list[j]
  }

  lemma {:induction false} InsertAdds(x: Mid, list: seq<Mid>)
    ensures multiset(Insert(x, list)) == multiset(list) + multiset{x}
  {
    if list != [] && x > list[0] {
      InsertAdds(x, list[1..]);
      assert list == [list[0]] + list[1..];
    }
  }

  lemma {:induction false} InsertKeepsOrder(x: Mid, list: seq<Mid>)
    requires Ascending(list)
    ensures Ascending(Insert(x, list))
  {
    if list != [] && x > list[0] {
      InsertKeepsOrder(x, list[1..]);
      var rest := Insert(x, list[1..]);
      forall i | 0 <= i < |rest| ensures list[0] <= rest[i] {
        InsertAdds(x, list[1..]);
        assert rest[i] in multiset(rest);
      }
    }
  }

  /** The archive's messages are those asked for, ascending. */
  lemma {:induction false} SortedIsSorted(list: seq<Mid>)
    ensures Ascending(Sorted(list)) && multiset(Sorted(list)) == multiset(list)
  {
    if list != [] {
      SortedIsSorted(list[1..]);
      InsertKeepsOrder(list[0], Sorted(list[1..]));
      InsertAdds(list[0], Sorted(list[1..]));
      assert list == [list[0]] + list[1..];
    }
  }

  function FirstProblem(s: Server, uid: Uid, mids: seq<Mid>): Option<Error>
    requires uid in s.users
  {
    if mids == [] then None
    else
      match FirstProblem(s, uid, mids[..|mids| - 1])
      case Some(e) => Some(e)
      case None => Problem(s, uid, mids[|mids| - 1])
  }

  lemma {:induction false} ProblemStands(s: Server, uid: Uid, mids: seq<Mid>, i: nat)
    requires uid in s.users && i <= |mids| && FirstProblem(s, uid, mids[..i]).Some?
    ensures FirstProblem(s, uid, mids) == FirstProblem(s, uid, mids[..i])
    decreases |mids| - i
  {
    if i < |mids| {
      assert mids[..i + 1][..i] == mids[..i];
      ProblemStands(s, uid, mids, i + 1);
    } else {
      assert mids[..i] == mids;
    }
  }

  lemma {:induction false} NoProblems(s: Server, uid: Uid, mids: seq<Mid>)
    requires uid in s.users
    ensures FirstProblem(s, uid, mids).None? <==> forall i :: 0 <= i < |mids| ==> Problem(s, uid, mids[i]).None?
  {
    if mids != [] {
      var front := mids[..|mids| - 1];
      NoProblems(s, uid, front);
      assert forall i :: 0 <= i < |front| ==> front[i] == mids[i];
    }
  }

  // ---- building ----

  /** Enters a sender whose messages have not been met yet. */
  method EnterSender(s: Server, u: Uid, ghost messages: seq<ArchiveMessage>, users: seq<ArchiveUser>, files: seq<File>,
                     usersMap: map<Uid, nat>, ghost owners: seq<Ref>)
    returns (users': seq<ArchiveUser>, files': seq<File>, usersMap': map<Uid, nat>, ghost owners': seq<Ref>)
    requires u in s.users
    ensures var d := WithUser(s, Draft(users, messages, files, usersMap, owners), u);
      users' == d.users && files' == d.files && usersMap' == d.senders && owners' == d.owners
  {
    var avatar: Option<nat> := None;
    files', owners' := files, owners;
    if u in s.avatars {
      files' := files + [File("image/png", None, s.avatars[u])];
      avatar := Some(|files'| - 1);
      owners' := owners + [UserAvatar(|users|)];
    }
    users' := users + [ArchiveUser(s.users[u].name, avatar)];
    usersMap' := usersMap[u := |users'| - 1];
  }

  /** Enters a message with an uploaded file. */
  method AttachFile(s: Server, uid: Uid, mid: Mid, m: Message, user: nat, ghost users: seq<ArchiveUser>,
                    messages: seq<ArchiveMessage>,
                    files: seq<File>, ghost usersMap: map<Uid, nat>, ghost owners: seq<Ref>)
    returns (messages': seq<ArchiveMessage>, files': seq<File>, ghost owners': seq<Ref>)
    ensures var before := Draft(users, messages, files, usersMap, owners);
      var d := WithFile(before, uid, mid, m, user, UploadOf(s, m.content), ThumbnailOf(s, m.content));
      messages' == d.messages && files' == d.files && owners' == d.owners
  {
    hide GetSource;
    var data := if m.content in s.uploads then s.uploads[m.content] else [];
    var meta := if m.content in s.metas then s.metas[m.content] else FileMeta("application/octet-stream", None);
    files' := files + [File(meta.contentType, meta.filename, data)];
    var file := |files'| - 1;
    owners' := owners + [MessageFile(|messages|)];
    var thumbnail: Option<nat> := None;
    if m.content in s.thumbnails {
      files' := files' + [File(meta.contentType, meta.filename, s.thumbnails[m.content])];
      thumbnail := Some(|files'| - 1);
      owners' := owners' + [MessageThumbnail(|messages|)];
    }
    var source := GetSource(uid, m);
    messages' := messages +
      [ArchiveMessage(user, m.createdAt, mid, source, m.properties, m.contentType, None, Some(file), thumbnail)];
  }

  /** Enters one message, with its sender if that is new; fails on a content type that has no place in an archive. */
  method EnterMessage(s: Server, uid: Uid, mid: Mid, m: Message, ghost mids: seq<Mid>, users: seq<ArchiveUser>,
                      messages: seq<ArchiveMessage>,
                      files: seq<File>, usersMap: map<Uid, nat>, ghost owners: seq<Ref>)
    returns (fits: bool, users': seq<ArchiveUser>, messages': seq<ArchiveMessage>, files': seq<File>,
             usersMap': map<Uid, nat>, ghost owners': seq<Ref>)
    requires mid in s.messages && m == s.messages[mid] && m.from in s.users
    requires Growing(s, uid, mids, Draft(users, messages, files, usersMap, owners))
    ensures fits <==> IsText(m.contentType) || IsFile(m.contentType)
    ensures fits ==> Growing(s, uid, mids + [mid], Draft(users', messages', files', usersMap', owners'))
  {
    hide Growing, Ready, GetSource, AvatarOf, UploadOf, ThumbnailOf, WithFile;
    ghost var d := Draft(users, messages, files, usersMap, owners);
    users', messages', files', usersMap', owners' := users, messages, files, usersMap, owners;
    var user: nat;
    if m.from in usersMap {
      user := usersMap[m.from];
    } else {
      users', files', usersMap', owners' := EnterSender(s, m.from, messages, users, files, usersMap, owners);
      user := |users'| - 1;
    }
    ghost var d1 := Draft(users', messages, files', usersMap', owners');
    SenderReady(s, uid, mids, d, m.from, d1);
    if m.contentType == "text/plain" || m.contentType == "text/markdown" ||
       m.contentType == "application/vnd.vocechat.e2ee.v2"
    {
      var source := GetSource(uid, m);
      messages' := messages +
        [ArchiveMessage(user, m.createdAt, mid, source, m.properties, m.contentType, Some(m.content), None, None)];
      TextReady(s, uid, mids, d1, mid, user);
    } else if m.contentType == "vocechat/file" {
      FileReady(s, uid, mids, d1, mid, user);
      messages', files', owners' := AttachFile(s, uid, mid, m, user, users', messages, files', usersMap', owners');
      assert Draft(users', messages', files', usersMap', owners') ==
        WithFile(d1, uid, mid, m, user, UploadOf(s, m.content), ThumbnailOf(s, m.content)) by {
          FileMovesNoUser(d1, uid, mid, m, user, UploadOf(s, m.content), ThumbnailOf(s, m.content));
        }
    } else {
      return false, users', messages', files', usersMap', owners';
    }
    fits := true;
  }

  lemma FileMovesNoUser(d: Draft, uid: Uid, mid: Mid, m: Message, user: nat, file: File, thumbnail: Option<File>)
    ensures var d' := WithFile(d, uid, mid, m, user, file, thumbnail);
      d'.users == d.users && d'.senders == d.senders
  {
  }

  /** The archive of a list of messages, or the error of the lowest message that has one. */
  method CreateMessageArchive(s: Server, list: seq<Mid>, uid: Uid) returns (r: Result<(Archive, seq<File>), Error>)
    ensures uid !in s.users ==> r == Err(BadRequest)
    ensures uid in s.users && FirstProblem(s, uid, Sorted(list)).Some? ==>
      r == Err(FirstProblem(s, uid, Sorted(list)).value)
    ensures uid in s.users && FirstProblem(s, uid, Sorted(list)).None? ==>
      r.Ok? && Faithful(s, uid, Sorted(list), r.value.0, r.value.1)
  {
    if uid !in s.users { return Err(BadRequest); }
    hide Growing, Faithful, FirstProblem, MayRead, Sorted, IsText, IsFile;
    var isAdmin := s.users[uid].isAdmin;
    var users: seq<ArchiveUser>, messages: seq<ArchiveMessage>, files: seq<File> := [], [], [];
    var usersMap: map<Uid, nat> := map[];
    ghost var owners: seq<Ref> := [];
    var mids := Sorted(list);
    EmptyDraft(s, uid);
    for n := 0 to |mids|
      invariant FirstProblem(s, uid, mids[..n]) == None
      invariant Growing(s, uid, mids[..n], Draft(users, messages, files, usersMap, owners))
    {
      var mid := mids[n];
      ProblemAt(s, uid, mids, n);
      assert mids[..n + 1] == mids[..n] + [mid];
      if mid !in s.messages { return Err(NotFound); }
      var m := s.messages[mid];
      if !isAdmin && !MayRead(s, m, uid) { return Err(Forbidden); }
      if m.from !in s.users { return Err(BadRequest); }
      var fits;
      fits, users, messages, files, usersMap, owners :=
        EnterMessage(s, uid, mid, m, mids[..n], users, messages, files, usersMap, owners);
      if !fits { return Err(BadRequest); }
    }
    assert mids[..|mids|] == mids;
    GrownIsFaithful(s, uid, mids, Draft(users, messages, files, usersMap, owners));
    r := Ok((Archive(users, messages, |files|), files));
  }

  /** The index so far is one of the messages so far. */
  ghost predicate Growing(s: Server, uid: Uid, mids: seq<Mid>, d: Draft) {
    Linked(d) && SendersAgree(s, d) && MessagesAgree(s, uid, mids, d) && AllUsedBut(d, |d.users|)
  }

  lemma EmptyDraft(s: Server, uid: Uid)
    requires uid in s.users
    ensures Growing(s, uid, [], Draft([], [], [], map[], [])) && FirstProblem(s, uid, []) == None
  {
  }

  lemma ProblemAt(s: Server, uid: Uid, mids: seq<Mid>, n: nat)
    requires uid in s.users && n < |mids| && FirstProblem(s, uid, mids[..n]) == None
    ensures FirstProblem(s, uid, mids[..n + 1]) == Problem(s, uid, mids[n])
    ensures Problem(s, uid, mids[n]).Some? ==> FirstProblem(s, uid, mids) == Problem(s, uid, mids[n])
  {
    assert mids[..n + 1][..n] == mids[..n];
    if Problem(s, uid, mids[n]).Some? { ProblemStands(s, uid, mids, n + 1); }
  }

  /** With the sender of the next message entered. */
  ghost predicate Ready(s: Server, uid: Uid, mids: seq<Mid>, d: Draft, u: Uid) {
    && Linked(d) && SendersAgree(s, d) && MessagesAgree(s, uid, mids, d)
    && u in d.senders && AllUsedBut(d, d.senders[u])
  }

  lemma SenderReady(s: Server, uid: Uid, mids: seq<Mid>, d: Draft, u: Uid, d1: Draft)
    requires Growing(s, uid, mids, d) && u in s.users
    requires d1 == if u in d.senders then d else WithUser(s, d, u)
    ensures Ready(s, uid, mids, d1, u) && u in d1.senders
  {
    hide Linked, SendersAgree, MessagesAgree, AvatarOf;
    if u !in d.senders {
      UserKeepsLinks(s, d, u);
      UserKeepsEntries(s, uid, mids, d, u);
    }
  }

  lemma TextReady(s: Server, uid: Uid, mids: seq<Mid>, d: Draft, mid: Mid, user: nat)
    requires mid in s.messages && IsText(s.messages[mid].contentType) && Ready(s, uid, mids, d, s.messages[mid].from)
    requires user == d.senders[s.messages[mid].from]
    ensures Growing(s, uid, mids + [mid], WithText(d, TextEntry(uid, mid, s.messages[mid], user)))
  {
    var e := TextEntry(uid, mid, s.messages[mid], user);
    assert MessageEntry(s, uid, d.files, e, mid);
    hide Linked, SendersAgree, MessagesAgree, MessageEntry;
    TextKeepsLinks(d, e);
    EntryJoins(s, uid, mids, d, e, mid);
  }

  lemma FileReady(s: Server, uid: Uid, mids: seq<Mid>, d: Draft, mid: Mid, user: nat)
    requires mid in s.messages && IsFile(s.messages[mid].contentType) && Ready(s, uid, mids, d, s.messages[mid].from)
    requires user == d.senders[s.messages[mid].from]
    ensures var m := s.messages[mid];
      Growing(s, uid, mids + [mid], WithFile(d, uid, mid, m, user, UploadOf(s, m.content), ThumbnailOf(s, m.content)))
  {
    hide Linked, SendersAgree, MessagesAgree, MessageEntry;
    var m := s.messages[mid];
    FileKeepsLinks(d, uid, mid, m, user, UploadOf(s, m.content), ThumbnailOf(s, m.content));
    FileJoins(s, uid, mids, d, mid, user);
  }

  lemma GrownIsFaithful(s: Server, uid: Uid, mids: seq<Mid>, d: Draft)
    requires Growing(s, uid, mids, d)
    ensures Faithful(s, uid, mids, Archive(d.users, d.messages, |d.files|), d.files)
  {
    DraftIsFaithful(s, uid, mids, d);
  }
}
