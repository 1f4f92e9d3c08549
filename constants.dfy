/** Fixed data of the front-end (constants.ts). */
module Constants {
  import opened Types

  const InitialGreeting: string :=
    "Hello, I am the Curator. Tell me about what you've enjoyed reading, or what you're in the mood for, and I shall find the perfect book for you."

  /** The transcript's first entry when the application starts. */
  const InitialChatMessage: ChatMessage := ChatMessage(Bot, Some(InitialGreeting), None)
}
