/**
 * The key management panel: a card per user, the key exchange button with its
 * guard, and the operations log.
 */
module KeyPanel {
  import opened ChatTypes

  /** `Alice.keys && Bob.keys`, as a truth value. */
  predicate CanExchange(users: Users) {
    users.alice.keys.Some? && users.bob.keys.Some?
  }

  /** `Alice.sessionKey && Bob.sessionKey`, as a truth value. */
  predicate SessionActive(users: Users) {
    users.alice.sessionKey.Some? && users.bob.sessionKey.Some?
  }

  /** How a user's card is drawn. */
  datatype UserCard = UserCard(name: string, keyBadge: string, sessionBadge: bool, generateButton: bool)

  /** `KeyDisplay`: the key badge, the session badge and the Generate button. */
  function RenderUser(name: string, user: UserKeys): UserCard {
    UserCard(
      name,
      if user.keys.Some? then "Keys Generated" else "No Keys",
      user.sessionKey.Some?,
      user.keys.None?)
  }

  /** How the whole panel is drawn. */
  datatype PanelView = PanelView(
    alice: UserCard, bob: UserCard,
    exchangeDisabled: bool, exchangeLabel: string, exchangeHint: bool,
    logLines: seq<string>, emptyLogText: bool)

  function Render(users: Users, logs: seq<string>): PanelView {
    PanelView(
      RenderUser("Alice", users.alice),
      RenderUser("Bob", users.bob),
      !CanExchange(users) || SessionActive(users),
      if SessionActive(users) then "Session Key Established" else "Perform Key Exchange",
      !CanExchange(users),
      logs,
      |logs| == 0)
  }

  /**
   * The exchange button is enabled exactly when both users have key pairs and
   * not both have a session key; its label and the hint follow the same state.
   */
  lemma ExchangeButton(users: Users, logs: seq<string>)
    ensures var v := Render(users, logs);
      && (!v.exchangeDisabled <==>
            users.alice.keys.Some? && users.bob.keys.Some?
            && (users.alice.sessionKey.None? || users.bob.sessionKey.None?))
      && (v.exchangeLabel == "Session Key Established" <==>
            users.alice.sessionKey.Some? && users.bob.sessionKey.Some?)
      && (v.exchangeLabel != "Session Key Established" ==> v.exchangeLabel == "Perform Key Exchange")
      && (v.exchangeHint <==> users.alice.keys.None? || users.bob.keys.None?)
  {
  }

  /** Once both session keys exist the button is disabled, whatever else holds. */
  lemma NoExchangeOnceSessionActive(users: Users, logs: seq<string>)
    requires SessionActive(users)
    ensures Render(users, logs).exchangeDisabled
    ensures Render(users, logs).exchangeLabel == "Session Key Established"
  {
  }

  /** Each card shows "Keys Generated", "Session Active" and Generate as the user's keys say. */
  lemma UserCardBadges(name: string, user: UserKeys)
    ensures var c := RenderUser(name, user);
      && (c.keyBadge == "Keys Generated" <==> user.keys.Some?)
      && (c.keyBadge != "Keys Generated" ==> c.keyBadge == "No Keys")
      && (c.sessionBadge <==> user.sessionKey.Some?)
      && (c.generateButton <==> user.keys.None?)
  {
  }

  /** The log is listed in append order, and the empty-log text shows iff there is no entry. */
  lemma LogListing(users: Users, logs: seq<string>, entry: string)
    ensures Render(users, logs + [entry]).logLines == Render(users, logs).logLines + [entry]
    ensures Render(users, logs).emptyLogText <==> Render(users, logs).logLines == []
  {
  }
}
