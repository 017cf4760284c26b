/**
 * The assistant's time-of-day greeting and its rotating tip (lib/comet-config.ts).
 * The clock's hour and the value of `Math.random()` are parameters.
 */
module CometConfig {

  const MorningGreeting: string := "\U{2600}\U{FE0F} Good morning!"
  const AfternoonGreeting: string := "\U{1F44B} Good afternoon!"
  const EveningGreeting: string := "\U{1F319} Good evening!"

  /** `getCometGreeting()` at a given local hour. */
  function CometGreeting(hour: int): (g: string)
    ensures g == MorningGreeting || g == AfternoonGreeting || g == EveningGreeting
  {
    if hour < 12 then MorningGreeting
    else if hour < 18 then AfternoonGreeting
    else EveningGreeting
  }

  /** The three greetings are told apart by their leading emoji. */
  lemma GreetingsDistinct()
    ensures MorningGreeting != AfternoonGreeting
    ensures MorningGreeting != EveningGreeting
    ensures AfternoonGreeting != EveningGreeting
  {
    assert MorningGreeting[0] == '\U{2600}';
    assert AfternoonGreeting[0] == '\U{1F44B}';
    assert EveningGreeting[0] == '\U{1F319}';
  }

  /** Over the hours `getHours()` can return, each greeting owns exactly one band. */
  lemma GreetingBands(hour: int)
    requires 0 <= hour <= 23
    ensures CometGreeting(hour) == MorningGreeting <==> 0 <= hour <= 11
    ensures CometGreeting(hour) == AfternoonGreeting <==> 12 <= hour <= 17
    ensures CometGreeting(hour) == EveningGreeting <==> 18 <= hour <= 23
  {
    GreetingsDistinct();
  }

  const Tips: seq<string> := [
    "\U{1F4A1} Tip: Use the marketplace to find pre-built components!",
    "\U{1F680} Tip: I can push your code directly to GitHub!",
    "\U{2728} Tip: Try different AI models to see which works best for your task!",
    "\U{1F3A8} Tip: Ask me to add glassmorphism effects to any component!",
    "\U{26A1} Tip: I can preview your React components in real-time!"
  ]

  /** `tips[Math.floor(random * tips.length)]` for a `Math.random()` draw in [0, 1). */
  function CometTip(random: real): (t: string)
    requires 0.0 <= random < 1.0
    ensures t in Tips
  {
    var index := (random * |Tips| as real).Floor;
    assert 0 <= index < |Tips|;
    Tips[index]
  }

  /** Each fifth of the unit interval selects one tip, so every tip can be shown. */
  lemma TipBands(random: real, k: nat)
    requires k < |Tips|
    requires k as real / 5.0 <= random < (k + 1) as real / 5.0
    ensures CometTip(random) == Tips[k]
  {
    assert k as real <= random * 5.0 < (k + 1) as real;
  }
}
