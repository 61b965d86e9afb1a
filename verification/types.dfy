/** The records of types.ts and the style catalogue of constants.ts. */
module Types {

  /** `InputMode`: pasted text or a link to fetch. */
  datatype InputMode = Text | Url

  /** `PublicationStyle`: a house style the rewrite imitates. */
  datatype PublicationStyle = PublicationStyle(
    id: string,
    name: string,
    description: string,
    logoInitial: string,
    color: string,
    promptModifier: string)

  /** `GeneratedContent`: the rewritten article. */
  datatype GeneratedContent = GeneratedContent(headline: string, body: string, keyTakeaways: seq<string>)

  /** `PUBLICATIONS`, in catalogue order. */
  const Publications: seq<PublicationStyle> := [
    PublicationStyle(
      "economist",
      "The Economist",
      "Witty, analytical, dry, authoritative, and concise. Uses British spelling and sophisticated vocabulary.",
      "E",
      "bg-red-600",
      "Write in the style of The Economist. Use British spelling. Be witty, dry, and highly analytical. Start with a clever hook. Use a \"Leaders\" editorial voice. Focus on macro-implications."),
    PublicationStyle(
      "nyt",
      "The New York Times",
      "Journalistic, polished, objective yet narrative-driven. Detailed and context-heavy.",
      "T",
      "bg-black",
      "Write in the style of The New York Times. Use a sophisticated, journalistic tone. Provide context and nuance. Structure it like a feature article or an op-ed column."),
    PublicationStyle(
      "new_yorker",
      "The New Yorker",
      "Long-form, literary, erudite, and deeply narrative. Uses specific details and a sophisticated cadence.",
      "N",
      "bg-stone-800",
      "Write in the style of The New York Times Magazine or The New Yorker. Be narrative, literary, and erudite. Focus on the human element and intellectual curiosity. Use long, flowing sentences."),
    PublicationStyle(
      "wired",
      "Wired",
      "Tech-forward, punchy, futuristic, and slightly irreverent.",
      "W",
      "bg-black border-b-2 border-lime-400",
      "Write in the style of Wired Magazine. Be punchy, tech-forward, and enthusiastic about future implications. Use modern internet-aware vocabulary."),
    PublicationStyle(
      "atlantic",
      "The Atlantic",
      "Thought-provoking, cultural commentary, sweeping intellectual arguments.",
      "A",
      "bg-black",
      "Write in the style of The Atlantic. Focus on cultural commentary and the \"big idea\". Be persuasive, intellectual, and slightly contrarian.")
  ]
}
