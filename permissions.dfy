/**
 * The REST API's permission classes as boolean rules over the request's
 * method and user and the object's owner, sender, receiver and participants.
 */
module Permissions {
  import opened Wrappers

  type UserRef = int

  /** `request.user`: an anonymous user, or an authenticated one. */
  datatype Requester = Anonymous | Authenticated(id: UserRef)

  /** `permissions.SAFE_METHODS`. */
  const SafeMethods: set<string> := {"GET", "HEAD", "OPTIONS"}

  /** `x == request.user` for a stored user `x`: never true for the anonymous user. */
  predicate Is(user: Requester, x: UserRef)
  {
    user == Authenticated(x)
  }

  // ---------------------------------------------------------------------------
  // IsOwnerOrReadOnly and IsMessageSender

  /** Reads are open to everyone; writes only to the owner. */
  predicate IsOwnerOrReadOnly(verb: string, user: Requester, owner: UserRef)
    ensures verb in SafeMethods ==> IsOwnerOrReadOnly(verb, user, owner)
    ensures IsOwnerOrReadOnly(verb, user, owner) && verb !in SafeMethods ==> user.Authenticated? && user.id == owner
    ensures user == Authenticated(owner) ==> IsOwnerOrReadOnly(verb, user, owner)
  {
    verb in SafeMethods || Is(user, owner)
  }

  /** Reads are open to the sender and the receiver; writes only to the sender. */
  predicate IsMessageSender(verb: string, user: Requester, sender: UserRef, receiver: UserRef)
    ensures IsMessageSender(verb, user, sender, receiver) ==> user.Authenticated? && user.id in {sender, receiver}
    ensures IsMessageSender(verb, user, sender, receiver) && verb !in SafeMethods ==> user == Authenticated(sender)
    ensures user == Authenticated(sender) ==> IsMessageSender(verb, user, sender, receiver)
    ensures verb in SafeMethods && user == Authenticated(receiver) ==> IsMessageSender(verb, user, sender, receiver)
  {
    if verb in SafeMethods then Is(user, sender) || Is(user, receiver) else Is(user, sender)
  }

  /** Anyone may read an object, only the owner may write it, and whoever may write may read. */
  lemma OwnerWritesImplyReads(write: string, read: string, user: Requester, owner: UserRef)
    requires write !in SafeMethods && read in SafeMethods
    ensures IsOwnerOrReadOnly(read, user, owner)
    ensures IsOwnerOrReadOnly(write, user, owner) <==> user == Authenticated(owner)
    ensures IsOwnerOrReadOnly(write, user, owner) ==> IsOwnerOrReadOnly(read, user, owner)
  {
  }

  /** A receiver who is not the sender may read a message but never change it. */
  lemma ReceiverReadsOnly(write: string, read: string, u: UserRef, sender: UserRef)
    requires write !in SafeMethods && read in SafeMethods && u != sender
    ensures IsMessageSender(read, Authenticated(u), sender, u)
    ensures !IsMessageSender(write, Authenticated(u), sender, u)
  {
  }

  /** For messages, write permission implies read permission. */
  lemma SenderWritesImplyReads(write: string, read: string, user: Requester, sender: UserRef, receiver: UserRef)
    requires write !in SafeMethods && read in SafeMethods
    ensures IsMessageSender(write, user, sender, receiver) ==> IsMessageSender(read, user, sender, receiver)
  {
  }

  // ---------------------------------------------------------------------------
  // IsParticipantOfConversation

  datatype Outcome = Allow | Deny | NotFound  // NotFound: `get_object_or_404` raised Http404

  /** The object a detail request is about. */
  datatype Target =
    | ConversationObj(participants: set<UserRef>)
    | MessageObj(conversationParticipants: set<UserRef>)  // `obj.conversation.participants`
    | OtherObj

  /**
   * `has_permission`. `conversations` maps the `conversation_pk` URL
   * argument to the conversation's participants, for the conversations
   * that exist.
   */
  function HasPermission(user: Requester, basename: string, verb: string,
                         conversationPk: Option<string>, conversations: map<string, set<UserRef>>): (o: Outcome)
    ensures user.Anonymous? ==> o == Deny
    ensures o == NotFound ==> basename == "conversation-messages" && conversationPk.Some? && conversationPk.value !in conversations
    ensures user.Authenticated? && basename != "conversation-messages" ==> o == Allow
    ensures user.Authenticated? && basename == "conversation-messages" && conversationPk.Some? && conversationPk.value != "" ==>
              var pk := conversationPk.value;
              && (o == NotFound <==> pk !in conversations)
              && (o == Allow <==> pk in conversations && user.id in conversations[pk])
  {
    if user.Anonymous? then Deny
    else if basename == "conversation" && verb == "POST" then Allow
    else if basename == "conversation-messages" then
      if conversationPk.None? || conversationPk.value == "" then Deny
      else if conversationPk.value !in conversations then NotFound
      else if user.id in conversations[conversationPk.value] then Allow
      else Deny
    else Allow
  }

  /** `has_object_permission`: participants only, and nothing for other kinds of object. */
  predicate HasObjectPermission(user: Requester, obj: Target)
    ensures HasObjectPermission(user, obj) ==> user.Authenticated? && !obj.OtherObj?
    ensures HasObjectPermission(user, obj) && obj.ConversationObj? ==> user.id in obj.participants
    ensures HasObjectPermission(user, obj) && obj.MessageObj? ==> user.id in obj.conversationParticipants
    ensures user.Authenticated? && obj.ConversationObj? && user.id in obj.participants ==> HasObjectPermission(user, obj)
    ensures user.Authenticated? && obj.MessageObj? && user.id in obj.conversationParticipants ==> HasObjectPermission(user, obj)
  {
    match obj
    case ConversationObj(ps) => user.Authenticated? && user.id in ps
    case MessageObj(ps) => user.Authenticated? && user.id in ps
    case OtherObj => false
  }

  /**
   * The list rule and the object rule agree on messages: a user may list or
   * post the messages of an existing conversation exactly when they may act
   * on each message in it.
   */
  lemma ListAgreesWithObjects(user: Requester, verb: string, pk: string, conversations: map<string, set<UserRef>>)
    requires pk != "" && pk in conversations
    ensures HasPermission(user, "conversation-messages", verb, Some(pk), conversations) == Allow <==>
            HasObjectPermission(user, MessageObj(conversations[pk]))
  {
  }

  /** Without a conversation in the URL, listing or posting messages is refused. */
  lemma MessagesNeedConversation(user: Requester, verb: string, conversations: map<string, set<UserRef>>)
    ensures HasPermission(user, "conversation-messages", verb, None, conversations) == Deny
    ensures HasPermission(user, "conversation-messages", verb, Some(""), conversations) == Deny
  {
  }

  /** Object access depends only on membership: a conversation and its messages admit the same users. */
  lemma ConversationAndMessagesAdmitSame(user: Requester, ps: set<UserRef>)
    ensures HasObjectPermission(user, ConversationObj(ps)) == HasObjectPermission(user, MessageObj(ps))
    ensures HasObjectPermission(user, ConversationObj(ps)) ==> user.Authenticated?
    ensures !HasObjectPermission(user, OtherObj)
  {
  }
}
