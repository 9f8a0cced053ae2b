/** What a finished archive says of each message, in terms of the message itself, and which messages have no place. */
module ArchiveEntries {
  import opened Wrappers
  import opened Archive

  /**
   The source of a message: for a direct message in which the maker of the archive takes part it is
   the other of the two, for every other message it is where it was sent.
   */
  lemma SourceIsTheOtherParty(s: Server, uid: Uid, mids: seq<Mid>, a: Archive, files: seq<File>, i: nat)
    requires Faithful(s, uid, mids, a, files) && i < |mids|
    ensures var m, e := s.messages[mids[i]], a.messages[i];
      if m.target.ToUser? && (uid == m.from || uid == m.target.uid)
      then e.source.ToUser? && {uid, e.source.uid} == {m.from, m.target.uid}
      else e.source == m.target
  {
    assert MessageEntry(s, uid, files, a.messages[i], mids[i]);
  }

  /** The stored metadata of a path, or unnamed bytes. */
  predicate Describes(s: Server, path: string, f: File) {
    if path in s.metas then f.contentType == s.metas[path].contentType && f.filename == s.metas[path].filename
    else f.contentType == "application/octet-stream" && f.filename == None
  }

  /**
   An entry carries its message's id, time, properties and kind. Text is in the entry itself. A file is
   an attachment, empty if the upload is gone, and its thumbnail another if there is one.
   */
  lemma EntryCarriesItsMessage(s: Server, uid: Uid, mids: seq<Mid>, a: Archive, files: seq<File>, i: nat)
    requires Faithful(s, uid, mids, a, files) && i < |mids|
    ensures mids[i] in s.messages
    ensures var m, e := s.messages[mids[i]], a.messages[i];
      && e.mid == mids[i] && e.createdAt == m.createdAt
      && e.properties == m.properties && e.contentType == m.contentType
      && (m.contentType in {"text/plain", "text/markdown", "application/vnd.vocechat.e2ee.v2"} ==>
            e.content == Some(m.content) && e.fileId == None && e.thumbnailId == None)
      && (m.contentType !in {"text/plain", "text/markdown", "application/vnd.vocechat.e2ee.v2"} ==>
            && m.contentType == "vocechat/file" && e.content == None
            && e.fileId.Some? && e.fileId.value < |files|
            && Describes(s, m.content, files[e.fileId.value])
            && files[e.fileId.value].content == (if m.content in s.uploads then s.uploads[m.content] else [])
            && (e.thumbnailId.Some? <==> m.content in s.thumbnails)
            && (e.thumbnailId.Some? ==>
                  && e.thumbnailId.value < |files|
                  && Describes(s, m.content, files[e.thumbnailId.value])
                  && files[e.thumbnailId.value].content == s.thumbnails[m.content]))
  {
    assert MessageEntry(s, uid, files, a.messages[i], mids[i]);
  }

  /** The user entry of a message names its sender and has the sender's picture, if there is one. */
  lemma EntryNamesItsSender(s: Server, uid: Uid, mids: seq<Mid>, a: Archive, files: seq<File>, i: nat)
    requires Faithful(s, uid, mids, a, files) && i < |mids|
    ensures mids[i] in s.messages && s.messages[mids[i]].from in s.users && a.messages[i].fromUser < |a.users|
    ensures var from, user := s.messages[mids[i]].from, a.users[a.messages[i].fromUser];
      && user.name == s.users[from].name
      && (user.avatar.Some? <==> from in s.avatars)
      && (user.avatar.Some? ==>
            user.avatar.value < |files| && files[user.avatar.value] == File("image/png", None, s.avatars[from]))
  {
    assert MessageEntry(s, uid, files, a.messages[i], mids[i]);
    assert UserEntry(s, files, a.users[a.messages[i].fromUser], s.messages[mids[i]].from);
  }

  /** Who may archive a message: administrators, the two parties of a direct one, whoever a group contains. */
  predicate Entitled(s: Server, m: Message, uid: Uid) {
    || (uid in s.users && s.users[uid].isAdmin)
    || (m.target.ToUser? && (uid == m.from || uid == m.target.uid))
    || (m.target.ToGroup? && m.target.gid in s.groups
        && (s.groups[m.target.gid].ty.Public? || uid in s.groups[m.target.gid].members))
  }

  /** Why a message cannot be archived. */
  lemma ProblemExactly(s: Server, uid: Uid, mid: Mid)
    requires uid in s.users
    ensures var p := Problem(s, uid, mid);
      && (p == Some(NotFound) <==> mid !in s.messages)
      && (p == Some(Forbidden) <==> mid in s.messages && !Entitled(s, s.messages[mid], uid))
      && (p == Some(BadRequest) <==>
            && mid in s.messages && Entitled(s, s.messages[mid], uid)
            && (s.messages[mid].from !in s.users
                || s.messages[mid].contentType !in
                     {"text/plain", "text/markdown", "application/vnd.vocechat.e2ee.v2", "vocechat/file"}))
  {
  }

  /** An archive that is refused is refused for the first of its messages, by id, that has a problem. */
  lemma {:induction false} FirstProblemDecides(s: Server, uid: Uid, mids: seq<Mid>, e: Error)
    requires uid in s.users
    ensures FirstProblem(s, uid, mids) == Some(e) <==>
      exists i :: 0 <= i < |mids| && Problem(s, uid, mids[i]) == Some(e)
        && forall j :: 0 <= j < i ==> Problem(s, uid, mids[j]) == None
  {
    if mids != [] {
      var front, last := mids[..|mids| - 1], |mids| - 1;
      FirstProblemDecides(s, uid, front, e);
      NoProblems(s, uid, front);
      hide Problem;
      assert forall i :: 0 <= i < |front| ==> mids[i] == front[i];
      if FirstProblem(s, uid, front) == None {
        assert forall j :: 0 <= j < last ==> Problem(s, uid, front[j]) == None;
      }
    }
  }
}
