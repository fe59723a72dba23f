/**
 * Message text as serenity's `MessageBuilder` assembles it. Escaping is a
 * foreign routine, so a message is kept as the list of pushes that built it:
 * `push` adds plain text, `push_safe` escaped text, `push_italic_safe` and
 * `push_mono_safe` escaped text in italics or monospace. `Raw` is the text a
 * reader sees once the markup is rendered.
 */
module Messages {

  datatype Segment = Plain(text: string) | Safe(text: string) | ItalicSafe(text: string) | MonoSafe(text: string)

  /** The rendered text of a message, markup and escaping aside. */
  function Raw(m: seq<Segment>): (r: string)
    ensures |m| == 1 ==> r == m[0].text
  {
    if m == [] then [] else Raw(m[..|m| - 1]) + m[|m| - 1].text
  }

  lemma {:induction false} RawAppend(a: seq<Segment>, b: seq<Segment>)
    ensures Raw(a + b) == Raw(a) + Raw(b)
  {
    if b == [] {
      assert a + b == a;
    } else {
      assert (a + b)[..|a + b| - 1] == a + b[..|b| - 1];
      RawAppend(a, b[..|b| - 1]);
    }
  }
}
