/**
 * Emoji extraction in the newer bot generation. A message is parsed (by a
 * foreign parser) into a tree of `MessagePart`s; the iterator consumes that
 * tree in place, yielding custom and Unicode emoji in document order.
 *
 * The tree is owned by the iterator and never shared, so the in-place
 * mutation is modelled by passing the part in and the updated part out.
 */
module PartEmoji {
  import opened Wrappers
  import opened Reactions

  /** A message part. Parts other than emoji and nesting (text, mentions, links, …) are `Text`. */
  datatype Part =
    | Empty
    | Nested(children: seq<Part>)
    | CustomEmoji(name: string, id: nat)
    | UnicodeEmoji(emoji: string)
    | Text(text: string)

  /** The emoji of a part, left to right, depth first. */
  function Emojis(p: Part): seq<Reaction>
    decreases p, 1
  {
    match p
    case Nested(cs) => EmojisOf(cs)
    case CustomEmoji(name, id) => [Custom(name, id)]
    case UnicodeEmoji(e) => [Unicode(e)]
    case _ => []
  }

  function EmojisOf(cs: seq<Part>): seq<Reaction>
    decreases cs, 0
  {
    if cs == [] then [] else Emojis(cs[0]) + EmojisOf(cs[1..])
  }

  lemma EmojisOfCons(c: Part, cs: seq<Part>)
    ensures EmojisOf([c] + cs) == Emojis(c) + EmojisOf(cs)
  {
    assert ([c] + cs)[1..] == cs;
  }

  /**
   * `message_part_next_emoji`: the next emoji of `part` in document order,
   * and the part with that emoji consumed. A leaf is replaced by `Empty`
   * when visited; a child that yields nothing is removed from the front of
   * its parent, a child that yields is put back in front.
   */
  method NextEmoji(part: Part) returns (emoji: Option<Reaction>, rest: Part)
    decreases part
    ensures emoji.None? <==> Emojis(part) == []
    ensures emoji.Some? ==> Emojis(part) == [emoji.value] + Emojis(rest)
    ensures emoji.None? ==> Emojis(rest) == []
    ensures part.Nested? ==> rest.Nested? && (emoji.None? ==> rest.children == [])
    ensures !part.Nested? ==> rest == Empty
  {
    if part.Nested? {
      var inner := part.children;
      while inner != []
        invariant EmojisOf(inner) == Emojis(part)
        invariant forall c :: c in inner ==> c in part.children
        decreases |inner|
      {
        var child := inner[0];
        assert child in part.children;
        inner := inner[0 := Empty];
        var found, child' := NextEmoji(child);
        if found.Some? {
          inner := inner[0 := child'];
          EmojisOfCons(child', inner[1..]);
          EmojisOfCons(child, inner[1..]);
          assert inner == [child'] + inner[1..];
          return found, Nested(inner);
        }
        EmojisOfCons(child, inner[1..]);
        inner := inner[1..];
      }
      return None, Nested(inner);
    }
    match part {
      case CustomEmoji(name, id) => emoji := Some(Custom(name, id));
      case UnicodeEmoji(e) => emoji := Some(Unicode(e));
      case _ => emoji := None;
    }
    rest := Empty;
  }

  /** The iterator over a parsed message. */
  class Iter {
    var part: Part

    constructor (msg: Part)
      ensures part == msg
    {
      part := msg;
    }

    /** `Iter::next`: yields the emoji in document order, each once, then `None`. */
    method Next() returns (emoji: Option<Reaction>)
      modifies this
      ensures emoji.None? <==> Emojis(old(part)) == []
      ensures emoji.Some? ==> Emojis(old(part)) == [emoji.value] + Emojis(part)
      ensures emoji.None? ==> Emojis(part) == []
    {
      emoji, part := NextEmoji(part);
    }
  }

  /** Draining the iterator yields exactly the message's emoji, in document order, and stops. */
  method CollectAll(msg: Part) returns (all: seq<Reaction>)
    ensures all == Emojis(msg)
  {
    var it := new Iter(msg);
    all := [];
    var emoji := it.Next();
    while emoji.Some?
      invariant emoji.Some? ==> all + [emoji.value] + Emojis(it.part) == Emojis(msg)
      invariant emoji.None? ==> all == Emojis(msg)
      decreases |Emojis(it.part)| + (if emoji.Some? then 1 else 0)
    {
      all := all + [emoji.value];
      emoji := it.Next();
    }
  }
}
