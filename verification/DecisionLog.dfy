/** The history of a rate limiter's decisions, and how many admissions of a key fall into an interval. */
module DecisionLog {
  import opened Domain

  /** One decision: the key it was counted under, when, and whether the request was admitted. */
  datatype Record = Record(key: string, now: Time, admitted: bool)

  /** How many requests of the log were admitted under the key at times in `[from, until)`. */
  function Count(log: seq<Record>, key: string, from: Time, until: Time): nat {
    if log == [] then 0
    else
      var last := log[|log| - 1];
      Count(log[..|log| - 1], key, from, until)
      + (if last.key == key && last.admitted && from <= last.now < until then 1 else 0)
  }

  lemma {:induction false} CountSnoc(log: seq<Record>, record: Record, key: string, from: Time, until: Time)
    ensures Count(log + [record], key, from, until)
         == Count(log, key, from, until)
            + (if record.key == key && record.admitted && from <= record.now < until then 1 else 0)
  {
    assert (log + [record])[..|log|] == log;
  }

  lemma {:induction false} CountSplit(log: seq<Record>, key: string, from: Time, mid: Time, until: Time)
    requires from <= mid <= until
    ensures Count(log, key, from, until) == Count(log, key, from, mid) + Count(log, key, mid, until)
  {
    if log != [] { CountSplit(log[..|log| - 1], key, from, mid, until); }
  }

  lemma {:induction false} CountWithin(log: seq<Record>, key: string, from: Time, until: Time, from': Time, until': Time)
    requires from' <= from && until <= until'
    ensures Count(log, key, from, until) <= Count(log, key, from', until')
  {
    if log != [] { CountWithin(log[..|log| - 1], key, from, until, from', until'); }
  }

  /** Everything admitted under the key was earlier. */
  lemma {:induction false} CountEarlier(log: seq<Record>, key: string, from: Time, until: Time)
    requires forall i :: 0 <= i < |log| && log[i].key == key && log[i].admitted ==> log[i].now < from
    ensures Count(log, key, from, until) == 0
  {
    if log != [] { CountEarlier(log[..|log| - 1], key, from, until); }
  }
}
