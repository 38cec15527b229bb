/** Values shared by the server and the client: options and chat messages. */
module Messages {

  /** An optional value; `None` stands for a JavaScript `undefined`. */
  datatype Option<T> = None | Some(value: T)

  /** The speaker of one chat message, as the chat-completion protocol names it. */
  datatype Role = System | User | Assistant

  /** One `{ role, content }` record of a conversation. */
  datatype Msg = Msg(role: Role, content: string)

  function UserMsg(content: string): Msg { Msg(User, content) }

  function AssistantMsg(content: string): Msg { Msg(Assistant, content) }

  /** `t` is `s` with some (possibly empty) prefix removed. */
  predicate IsSuffix<T(==)>(t: seq<T>, s: seq<T>) {
    |t| <= |s| && t == s[|s| - |t|..]
  }

  /** Appending the same tail to both sides keeps a suffix a suffix. */
  lemma SuffixAppend<T>(t: seq<T>, s: seq<T>, tail: seq<T>)
    requires IsSuffix(t, s)
    ensures IsSuffix(t + tail, s + tail)
  {
    assert (s + tail)[|s + tail| - |t + tail|..] == s[|s| - |t|..] + tail;
  }

  /** A suffix and the sequence it ends agree on their last `n` elements. */
  lemma SuffixTail<T>(t: seq<T>, s: seq<T>, n: nat)
    requires IsSuffix(t, s) && n <= |t|
    ensures t[|t| - n..] == s[|s| - n..]
  {
    assert t[|t| - n..] == s[|s| - |t|..][|t| - n..];
  }

  /** A suffix of a suffix is a suffix. */
  lemma SuffixTrans<T>(u: seq<T>, t: seq<T>, s: seq<T>)
    requires IsSuffix(u, t) && IsSuffix(t, s)
    ensures IsSuffix(u, s)
  {
    assert t[|t| - |u|..] == s[|s| - |u|..];
  }
}
