/**
 * The two kinds of record the matching service reads: a campaign (what a
 * client asks for) and a designer profile, as rows of the `campaigns` and
 * `designers` tables. Every column may be NULL, so the fields the scorer
 * tests for presence are optional.
 */
module Records {
  import opened Wrappers
  import opened ListCodec

  datatype Campaign = Campaign(
    id: int,
    budget: real,                  // the most the client will pay
    ambiance: Option<string>,      // wanted scene mood
    platformPref: Option<string>,  // wanted export format or platform
    interactivity: Option<int>,    // wanted level of game logic
    style: Option<string>,         // wanted visual style
    timeline: Option<string>,      // delivery window, compared as text
    submittedAt: string
  )

  datatype Designer = Designer(
    id: int,
    name: string,
    rateTier: Option<real>,            // the designer's rate
    sceneTags: Raw,                    // ambiances offered (a list, or JSON text)
    exportFormats: Raw,                // platforms supported (a list, or JSON text)
    gameLogicExperience: Option<int>,  // level of game logic the designer handles
    visualMetadata: Raw,               // styles offered (a list, or JSON text)
    availability: Option<string>,      // earliest delivery, compared as text
    performanceScore: Option<real>     // past rating, normally between 0 and 1
  )
}
