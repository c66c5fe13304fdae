/**
 * The text-message handler: the message is stripped, a leading `!` makes
 * it a command that only admins may use, and commands are recognised in
 * a fixed order (`!admins` exactly, then the `!admin` prefix, then the
 * `!kick` prefix, then anything else).  Outside commands only an exact
 * `whoami` is answered.  Replies are returned instead of sent.
 */
module Bot {
  import opened Wrappers
  import opened Text
  import opened Store

  const NotAdminReply: string := "❌ You are not an admin."
  const RosterHeader: string := "👑 Current admins:\n"
  const PromotedReply: string := "✅ User promoted to admin."
  const NoMentionReply: string := "⚠️ Please mention a user to promote."
  const CannotKickReply: string := "❌ Sorry, I cannot kick users automatically."
  const UnknownReply: string := "⚠️ Unknown command."
  const WhoAmIPrefix: string := "Your user ID: "

  /** The mention annotation of a message: the user ids of its mentionees, each possibly absent. */
  type Mention = Option<seq<Option<string>>>

  /** `extract_mention`: the user id of the first mentionee, if there is a mentionee and it carries one. */
  function ExtractMention(mention: Mention): Option<string>
  {
    if mention.Some? && |mention.value| > 0 then mention.value[0] else None
  }

  /** Python truthiness of an optional string: neither `None` nor empty. */
  predicate Truthy(o: Option<string>) {
    o.Some? && o.value != ""
  }

  /** What a stripped message asks for. */
  datatype Command = ListAdmins | Promote | Kick | UnknownCommand | WhoAmI | Ignore {
    /** Commands that start with `!` and are therefore reserved for admins. */
    predicate Privileged() {
      !(WhoAmI? || Ignore?)
    }
  }

  /** The branch of the handler a stripped text selects, in the handler's order. */
  function Classify(t: string): (c: Command)
    ensures c.Privileged() <==> StartsWith(t, "!")
    ensures c == ListAdmins <==> t == "!admins"
    ensures c == Promote <==> StartsWith(t, "!admin") && t != "!admins"
    ensures c == Kick <==> StartsWith(t, "!kick")
    ensures c == UnknownCommand <==> StartsWith(t, "!") && !StartsWith(t, "!admin") && !StartsWith(t, "!kick")
    ensures c == WhoAmI <==> t == "whoami"
    ensures c == Ignore <==> !StartsWith(t, "!") && t != "whoami"
  {
    // `!kick…` and `!admin…` differ in their second character, so at most one prefix applies.
    assert StartsWith(t, "!kick") ==> t[1] == "!kick"[1] != "!admin"[1];
    // `whoami` does not start with `!`.
    assert t == "whoami" ==> t[0] != '!';
    if StartsWith(t, "!") then
      if t == "!admins" then ListAdmins
      else if StartsWith(t, "!admin") then Promote
      else if StartsWith(t, "!kick") then Kick
      else UnknownCommand
    else if t == "whoami" then WhoAmI
    else Ignore
  }

  /** The precedence between overlapping commands, on sample texts. */
  lemma ClassifyExamples()
    ensures Classify("!admins") == ListAdmins
    ensures Classify("!adminsX") == Promote && Classify("!adminfoo") == Promote && Classify("!admin") == Promote
    ensures Classify("!kick") == Kick && Classify("!kickall") == Kick
    ensures Classify("!") == UnknownCommand && Classify("!help") == UnknownCommand
    ensures Classify("whoami") == WhoAmI && Classify("WhoAmI") == Ignore && Classify("hello") == Ignore
  {
  }

  /** The `!admins` reply: the header, then the stored ids joined by newlines. */
  function RosterReply(admins: seq<string>): string {
    RosterHeader + Join(admins, "\n")
  }

  /**
   * The roster names every admin on a line of its own and nothing else:
   * below the header, the lines are exactly the stored ids, so no id is
   * listed twice.  (The store is never empty once the initial admin
   * has been seeded.)
   */
  lemma RosterLines(admins: seq<string>)
    requires NoDuplicates(admins) && |admins| > 0
    requires forall i :: 0 <= i < |admins| ==> '\n' !in admins[i]
    ensures StartsWith(RosterReply(admins), RosterHeader)
    ensures var lines := Split(RosterReply(admins)[|RosterHeader|..], '\n');
      lines == admins && NoDuplicates(lines)
  {
    assert RosterReply(admins)[|RosterHeader|..] == Join(admins, ['\n']);
    SplitJoin(admins, '\n');
  }

  /** `handle_message` for a text message from `sender`. */
  method HandleMessage(store: AdminStore, sender: string, text: string, mention: Mention)
    returns (reply: Option<string>)
    requires store.Valid()
    modifies store
    ensures store.Valid()
    ensures old(store.ids) <= store.ids
    // The admin gate: a non-admin's command is refused, whatever it is.
    ensures Classify(Strip(text)).Privileged() && !old(store.IsAdmin(sender)) ==>
      reply == Some(NotAdminReply) && store.ids == old(store.ids)
    ensures Classify(Strip(text)) == ListAdmins && old(store.IsAdmin(sender)) ==>
      reply == Some(RosterReply(old(store.GetAdmins()))) && store.ids == old(store.ids)
    // A promotion needs a first mentionee carrying a non-empty user id.
    ensures (Classify(Strip(text)) == Promote && old(store.IsAdmin(sender))
             && mention.Some? && |mention.value| > 0
             && mention.value[0].Some? && mention.value[0].value != "") ==>
      reply == Some(PromotedReply)
      && store.ids == Inserted(old(store.ids), mention.value[0].value)
      && store.IsAdmin(mention.value[0].value)
    // No annotation, no mentionees, or a first mentionee without a user id or with an empty one.
    ensures (Classify(Strip(text)) == Promote && old(store.IsAdmin(sender))
             && (mention.None? || mention.value == []
                 || mention.value[0].None? || mention.value[0].value == "")) ==>
      reply == Some(NoMentionReply) && store.ids == old(store.ids)
    ensures Classify(Strip(text)) == Kick && old(store.IsAdmin(sender)) ==>
      reply == Some(CannotKickReply) && store.ids == old(store.ids)
    ensures Classify(Strip(text)) == UnknownCommand && old(store.IsAdmin(sender)) ==>
      reply == Some(UnknownReply) && store.ids == old(store.ids)
    // No gate outside commands.
    ensures Classify(Strip(text)) == WhoAmI ==>
      reply == Some(WhoAmIPrefix + sender) && store.ids == old(store.ids)
    ensures Classify(Strip(text)) == Ignore ==> reply == None && store.ids == old(store.ids)
    // Only a promotion by an admin changes the store.
    ensures store.ids != old(store.ids) ==>
      Classify(Strip(text)) == Promote && old(store.IsAdmin(sender))
      && mention.Some? && |mention.value| > 0
      && mention.value[0].Some? && mention.value[0].value != ""
  {
    var t := Strip(text);
    if StartsWith(t, "!") {
      if !store.IsAdmin(sender) {
        return Some(NotAdminReply);
      }
      if t == "!admins" {
        reply := Some(RosterReply(store.GetAdmins()));
      } else if StartsWith(t, "!admin") {
        var mentionId := ExtractMention(mention);
        if Truthy(mentionId) {
          store.AddAdmin(mentionId.value);
          reply := Some(PromotedReply);
        } else {
          reply := Some(NoMentionReply);
        }
      } else if StartsWith(t, "!kick") {
        reply := Some(CannotKickReply);
      } else {
        reply := Some(UnknownReply);
      }
    } else if t == "whoami" {
      reply := Some(WhoAmIPrefix + sender);
    } else {
      reply := None;
    }
  }

  /**
   * Two calls in a row: an admin promotes a user, then repeats the same
   * promotion.  The first call makes the user an admin; the second
   * creates no second row.
   */
  method PromoteTwice(store: AdminStore, admin: string, text: string, user: string)
    returns (first: Option<string>, second: Option<string>)
    requires store.Valid() && store.IsAdmin(admin)
    requires Classify(Strip(text)) == Promote && user != ""
    modifies store
    ensures store.Valid()
    ensures first == Some(PromotedReply) && second == Some(PromotedReply)
    ensures store.ids == Inserted(old(store.ids), user)
    ensures store.IsAdmin(user) && |FilterBy(store.ids, user)| == 1
  {
    first := HandleMessage(store, admin, text, Some([Some(user)]));
    ghost var afterFirst := store.ids;
    second := HandleMessage(store, admin, text, Some([Some(user)]));
    assert store.ids == afterFirst;
    AtMostOneRow(store.ids, user);
  }

  /** A process started on an empty database answers only its initial admin's commands. */
  method FreshStartGate(initial: string, sender: string, text: string, mention: Mention)
    returns (reply: Option<string>)
    requires sender != initial && Classify(Strip(text)).Privileged()
    ensures reply == Some(NotAdminReply)
  {
    var store := OpenStore(initial);
    reply := HandleMessage(store, sender, text, mention);
  }
}
