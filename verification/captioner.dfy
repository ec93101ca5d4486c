/**
 * The captioning step of the upload route. The shown service is a mock: it ignores the image,
 * picks one of three fixed caption triples with `Math.floor(Math.random() * 3)`, and waits two
 * seconds. The random draw is the `choice` parameter; the delay is not modelled.
 */
module Captioner {
  import opened Schema

  /** The three fixed caption triples, in source order. */
  const MockCaptions: seq<Captions> := [
    Captions(
      "A beautiful landscape with mountains, trees, and clear blue skies creating a serene natural scene.",
      "పర్వతాలు, చెట్లు మరియు స్పష్టమైన నీలిరంగు ఆకాశంతో ఒక అందమైన ప్రకృతి దృశ్యం.",
      "पहाड़ों, पेड़ों और स्पष्ट नीले आसमान के साथ एक सुंदर प्राकृतिक दृश्य।"),
    Captions(
      "An urban cityscape featuring modern buildings, busy streets, and architectural elements in daylight.",
      "ఆధునిక భవనాలు, రద్దీగా ఉన్న వీధులు మరియు పగటి వేళల్లో వాస్తుశిల్ప అంశాలతో కూడిన పట్టణ దృశ్యం.",
      "आधुनिक इमारतों, व्यस्त सड़कों और दिन के उजाले में स्थापत्य तत्वों वाला एक शहरी दृश्य।"),
    Captions(
      "A natural outdoor scene with vegetation, open spaces, and elements of the natural environment.",
      "వృక్షసంపద, బహిరంగ ప్రదేశాలు మరియు సహజ పర్యావరణ అంశాలతో కూడిన సహజ బహిరంగ దృశ్యం.",
      "वनस्पति, खुली जगहों और प्राकृतिक पर्यावरण के तत्वों के साथ एक प्राकृतिक बाहरी दृश्य।")
  ]

  /** Every caption the mock can return is non-empty in all three languages. */
  predicate Complete(c: Captions)
  {
    c.english != [] && c.telugu != [] && c.hindi != []
  }

  /** `generateImageCaptions`: the triple at the drawn index; it never fails. */
  function GenerateImageCaptions(choice: nat): (c: Captions)
    requires choice < |MockCaptions|
    ensures c in MockCaptions
    ensures Complete(c)
  {
    MockCaptions[choice]
  }

  /** `Math.floor(r * 3)` for a draw `r` in [0, 1), with `r` given as `num / den`. */
  function DrawIndex(num: nat, den: nat): (i: nat)
    requires num < den
    ensures i < |MockCaptions|
    ensures i * den <= num * 3 < (i + 1) * den
  {
    num * 3 / den
  }
}
