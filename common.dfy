/** Configuration constants of the bot (bot/common.py). */
module Common {

  /** Upper bound on the number of results one request asks for. */
  const MAX_RESULTS: int := 10

  /** Size budget of one reply post (the platform's real limit is 10000). */
  const MAX_LENGTH: int := 9900

  /** Fixed text appended to every reply post. The `\/` of the Python literal is
      not an escape there, so the backslash is part of the text. */
  const FOOTER: string :=
    "\n\n*****\n^(I'm a bot | ) [^source](https://github.com/FluffierThanThou/reddit-modlinker)"
    + " ^| [^commands](https://github.com/FluffierThanThou/reddit-modlinker/blob/master/bot/COMMANDS.MD#link-to-a-mod-or-scenario-for-a-specific-alpha-of-rimworld)"
    + " ^| [^stats](http://modlinker-stats.karel-kroeze.nl/)"
    + " ^(| I was made by )[^/u\\/FluffierThanThou](/user/FluffierThanThou)"

  /** The footer leaves room for content: the precondition under which the
      paginator never gets stuck with an empty reply. */
  lemma FooterFits()
    ensures 0 < |FOOTER| < MAX_LENGTH
  {
  }
}
