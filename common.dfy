/** Shared vocabulary of the client: optional values, server replies,
    toast notifications and the "subsequence" relation used to state that
    a filter keeps the order of what it filters. */
module Common {

  datatype Option<+T> = None | Some(value: T)

  /** What a mutation call comes back with.  `Response` is an HTTP response
      with its status and the `message` field of its JSON body ("" when the
      body has none); `NoResponse` is a request that failed before any
      response arrived (network error). */
  datatype Reply = Response(status: int, message: string) | NoResponse

  /** axios resolves its promise for a 2xx status and rejects otherwise. */
  predicate Resolves(reply: Reply): (resolved: bool)
    ensures resolved <==> reply.Response? && reply.status / 100 == 2
  {
    reply.Response? && 200 <= reply.status < 300
  }

  /** The message shown by the `catch` blocks that read
      `error.response?.data?.message || "Something went wrong!"`. */
  function CaughtMessage(reply: Reply): (m: string)
    ensures m != ""
    ensures reply.Response? && reply.message != "" ==> m == reply.message
  {
    if reply.Response? && reply.message != "" then reply.message else "Something went wrong!"
  }

  /** A toast notification raised by a component. */
  datatype Toast = SuccessToast(text: string) | ErrorToast(text: string)

  /** `r` is obtained from `s` by leaving elements out, the rest kept in order. */
  predicate IsSubsequence<T(==)>(r: seq<T>, s: seq<T>)
    decreases |s|
  {
    r == [] ||
    (s != [] &&
     ((r[0] == s[0] && IsSubsequence(r[1..], s[1..])) || IsSubsequence(r, s[1..])))
  }

  /** A subsequence is never longer than what it was taken from, and holds
      each value at most as often. */
  lemma {:induction false} SubsequenceIsSmaller<T>(r: seq<T>, s: seq<T>)
    requires IsSubsequence(r, s)
    ensures |r| <= |s|
    ensures multiset(r) <= multiset(s)
    decreases |s|
  {
    if r == [] {
    } else if r[0] == s[0] && IsSubsequence(r[1..], s[1..]) {
      SubsequenceIsSmaller(r[1..], s[1..]);
      assert r == [r[0]] + r[1..];
      assert s == [s[0]] + s[1..];
    } else {
      SubsequenceIsSmaller(r, s[1..]);
      assert s == [s[0]] + s[1..];
    }
  }
}
