/** What a destination shows about the sends to it: the last one, and the time of the last delivery. */
module DestinationStatus {
  import opened Options

  /** A send: to whose destination, when, and what came back. */
  datatype Post = Post(tenant: string, at: real, code: int, error: string)

  /** The fields of a destination that its sends change; no success is the source's time 0. */
  datatype LastAttempt = LastAttempt(at: real, success: Option<real>, code: int, error: string)

  predicate Delivers(code: int) {
    200 <= code < 300
  }

  function Digits(n: nat): string {
    (if n < 10 then "" else Digits(n / 10)) + ["0123456789"[n % 10]]
  }

  function Decimal(n: int): string {
    if n < 0 then "-" + Digits(-n) else Digits(n)
  }

  /** The error text of a send, cut at 240 characters. */
  function ErrorText(code: int, error: string): string {
    var text := if Delivers(code) then "" else if error != "" then error else "http " + Decimal(code);
    if |text| > 240 then text[..240] else text
  }

  /** The number that a string of digits stands for. */
  function Value(digits: string): nat
    requires AllDigits(digits)
  {
    if digits == "" then 0
    else 10 * Value(digits[..|digits| - 1]) + (digits[|digits| - 1] as int - '0' as int)
  }

  predicate AllDigits(s: string) {
    forall i :: 0 <= i < |s| ==> '0' <= s[i] <= '9'
  }

  lemma ValueSnoc(s: string, c: char)
    requires AllDigits(s) && '0' <= c <= '9'
    ensures AllDigits(s + [c]) && Value(s + [c]) == 10 * Value(s) + (c as int - '0' as int)
  {
    assert (s + [c])[..|s|] == s;
  }

  lemma LastDigit(n: nat)
    ensures var c := "0123456789"[n % 10]; '0' <= c <= '9' && c as int - '0' as int == n % 10
  {
  }

  /** The printed number reads back. */
  lemma {:induction false} DigitsRead(n: nat)
    ensures Digits(n) != "" && AllDigits(Digits(n)) && Value(Digits(n)) == n
  {
    LastDigit(n);
    if n >= 10 {
      DigitsRead(n / 10);
      ValueSnoc(Digits(n / 10), "0123456789"[n % 10]);
    } else {
      ValueSnoc("", "0123456789"[n % 10]);
      assert "" + ["0123456789"[n % 10]] == ["0123456789"[n % 10]];
    }
  }

  /** A delivery shows no error; else the transport's own words, or the code when it has none, up to 240 characters. */
  lemma ErrorTextMeans(code: int, error: string)
    ensures 200 <= code <= 299 ==> ErrorText(code, error) == ""
    ensures !(200 <= code <= 299) && error != "" ==>
              ErrorText(code, error) == error[..if |error| < 240 then |error| else 240]
    ensures !(200 <= code <= 299) && error == "" && |Decimal(code)| < 200 ==>
              ErrorText(code, error) == "http " + if code < 0 then "-" + Digits(-code) else Digits(code)
  {
  }

  /** The table of destinations after one send; `_update_status`. */
  function Attempted(status: map<string, LastAttempt>, p: Post): map<string, LastAttempt> {
    var before := if p.tenant in status then status[p.tenant].success else None;
    var success := if Delivers(p.code) then Some(p.at) else before;
    status[p.tenant := LastAttempt(p.at, success, p.code, ErrorText(p.code, p.error))]
  }

  function AllAttempted(status: map<string, LastAttempt>, posts: seq<Post>): map<string, LastAttempt>
    decreases |posts|
  {
    if posts == [] then status else AllAttempted(Attempted(status, posts[0]), posts[1..])
  }

  /** The table after all sends of a worker that started without any. */
  function StatusOf(posts: seq<Post>): map<string, LastAttempt> {
    AllAttempted(map[], posts)
  }

  lemma {:induction false} AttemptedConcat(status: map<string, LastAttempt>, a: seq<Post>, b: seq<Post>)
    ensures AllAttempted(status, a + b) == AllAttempted(AllAttempted(status, a), b)
    decreases |a|
  {
    if a == [] {
      assert a + b == b;
    } else {
      assert (a + b)[1..] == a[1..] + b;
      AttemptedConcat(Attempted(status, a[0]), a[1..], b);
    }
  }

  lemma StatusConcat(a: seq<Post>, b: seq<Post>)
    ensures StatusOf(a + b) == AllAttempted(StatusOf(a), b)
  {
    AttemptedConcat(map[], a, b);
  }

  // ---------------------------------------------------------------- what it means

  ghost predicate Concerns(p: Post, tenant: string, deliveries: bool) {
    p.tenant == tenant && (deliveries ==> Delivers(p.code))
  }

  /** `i` is the place of the tenant's last send, or of its last delivery. */
  ghost predicate IsLast(posts: seq<Post>, tenant: string, deliveries: bool, i: nat) {
    && i < |posts| && Concerns(posts[i], tenant, deliveries)
    && forall k :: i < k < |posts| ==> !Concerns(posts[k], tenant, deliveries)
  }

  ghost predicate NoneAt(posts: seq<Post>, tenant: string, deliveries: bool) {
    forall k :: 0 <= k < |posts| ==> !Concerns(posts[k], tenant, deliveries)
  }

  /** `a` tells about the tenant's last send. */
  ghost predicate ShowsSend(posts: seq<Post>, tenant: string, a: LastAttempt) {
    exists i: nat :: IsLast(posts, tenant, false, i)
      && a.at == posts[i].at && a.code == posts[i].code && a.error == ErrorText(posts[i].code, posts[i].error)
  }

  /** `success` is the time of the tenant's last delivery. */
  ghost predicate ShowsDelivery(posts: seq<Post>, tenant: string, success: Option<real>) {
    if success.None? then NoneAt(posts, tenant, true)
    else exists i: nat :: IsLast(posts, tenant, true, i) && success == Some(posts[i].at)
  }

  /** What a tenant's destination shows after all those sends. */
  ghost predicate ShowsLast(posts: seq<Post>, tenant: string, status: map<string, LastAttempt>) {
    if tenant !in status then NoneAt(posts, tenant, false)
    else ShowsSend(posts, tenant, status[tenant]) && ShowsDelivery(posts, tenant, status[tenant].success)
  }

  lemma NewestIsLast(posts: seq<Post>, p: Post, tenant: string, deliveries: bool)
    requires Concerns(p, tenant, deliveries)
    ensures IsLast(posts + [p], tenant, deliveries, |posts|) && (posts + [p])[|posts|] == p
  {
  }

  lemma LastStays(posts: seq<Post>, p: Post, tenant: string, deliveries: bool, i: nat)
    requires !Concerns(p, tenant, deliveries) && IsLast(posts, tenant, deliveries, i)
    ensures IsLast(posts + [p], tenant, deliveries, i) && (posts + [p])[i] == posts[i]
  {
  }

  lemma NoneStays(posts: seq<Post>, p: Post, tenant: string, deliveries: bool)
    requires !Concerns(p, tenant, deliveries) && NoneAt(posts, tenant, deliveries)
    ensures NoneAt(posts + [p], tenant, deliveries)
  {
  }

  lemma SendShown(posts: seq<Post>, p: Post, tenant: string, a: LastAttempt)
    requires p.tenant != tenant && ShowsSend(posts, tenant, a)
    ensures ShowsSend(posts + [p], tenant, a)
  {
    var i: nat :| IsLast(posts, tenant, false, i)
      && a.at == posts[i].at && a.code == posts[i].code && a.error == ErrorText(posts[i].code, posts[i].error);
    LastStays(posts, p, tenant, false, i);
  }

  lemma DeliveryShown(posts: seq<Post>, p: Post, tenant: string, success: Option<real>)
    requires !Concerns(p, tenant, true) && ShowsDelivery(posts, tenant, success)
    ensures ShowsDelivery(posts + [p], tenant, success)
  {
    if success.None? {
      NoneStays(posts, p, tenant, true);
    } else {
      var i: nat :| IsLast(posts, tenant, true, i) && success == Some(posts[i].at);
      LastStays(posts, p, tenant, true, i);
    }
  }

  lemma NoSendNoDelivery(posts: seq<Post>, tenant: string)
    requires NoneAt(posts, tenant, false)
    ensures NoneAt(posts, tenant, true)
  {
    forall k | 0 <= k < |posts| ensures !Concerns(posts[k], tenant, true) {
      assert !Concerns(posts[k], tenant, false);
    }
  }

  lemma OwnSend(posts: seq<Post>, status: map<string, LastAttempt>, p: Post)
    requires ShowsLast(posts, p.tenant, status)
    ensures ShowsLast(posts + [p], p.tenant, Attempted(status, p))
  {
    NewestIsLast(posts, p, p.tenant, false);
    if Delivers(p.code) {
      NewestIsLast(posts, p, p.tenant, true);
    } else {
      if p.tenant !in status {
        NoSendNoDelivery(posts, p.tenant);
      }
      DeliveryShown(posts, p, p.tenant, if p.tenant in status then status[p.tenant].success else None);
    }
  }

  lemma SendStep(posts: seq<Post>, status: map<string, LastAttempt>, p: Post, tenant: string)
    requires ShowsLast(posts, tenant, status)
    ensures ShowsLast(posts + [p], tenant, Attempted(status, p))
  {
    if p.tenant == tenant {
      OwnSend(posts, status, p);
    } else if tenant in status {
      SendShown(posts, p, tenant, status[tenant]);
      DeliveryShown(posts, p, tenant, status[tenant].success);
    } else {
      NoneStays(posts, p, tenant, false);
    }
  }

  /**
   Whatever was sent: a destination shows nothing exactly when nothing was sent to it, and else its
   last send, and the time of its last delivery if there was one.
   */
  lemma {:induction false} StatusShowsLast(posts: seq<Post>, tenant: string)
    ensures ShowsLast(posts, tenant, StatusOf(posts))
  {
    if posts != [] {
      var n := |posts| - 1;
      StatusShowsLast(posts[..n], tenant);
      assert posts == posts[..n] + [posts[n]];
      StatusConcat(posts[..n], [posts[n]]);
      SendStep(posts[..n], StatusOf(posts[..n]), posts[n], tenant);
      OneAttempted(StatusOf(posts[..n]), posts[n]);
    }
  }

  lemma OneAttempted(status: map<string, LastAttempt>, p: Post)
    ensures AllAttempted(status, [p]) == Attempted(status, p)
  {
    assert [p][1..] == [];
  }
}
