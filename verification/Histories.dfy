/** What a history of events says is still in force. */
module Histories {

  /** Some event of the history gave it, and no later event took it away. */
  ghost predicate Survives<E>(history: seq<E>, gives: E -> bool, takes: E -> bool) {
    exists i :: 0 <= i < |history| && gives(history[i])
      && forall j :: i < j < |history| ==> !takes(history[j])
  }

  lemma SurvivesOneMore<E>(history: seq<E>, last: E, gives: E -> bool, takes: E -> bool)
    ensures Survives(history + [last], gives, takes)
       <==> gives(last) || (Survives(history, gives, takes) && !takes(last))
  {
    var longer := history + [last];
    if gives(last) {
      assert gives(longer[|history|]);
    }
    if Survives(history, gives, takes) && !takes(last) {
      var i :| 0 <= i < |history| && gives(history[i])
        && forall j :: i < j < |history| ==> !takes(history[j]);
      assert gives(longer[i]);
      assert forall j :: i < j < |longer| ==> !takes(longer[j]);
    }
    if Survives(longer, gives, takes) && !gives(last) {
      var i :| 0 <= i < |longer| && gives(longer[i])
        && forall j :: i < j < |longer| ==> !takes(longer[j]);
      assert gives(history[i]);
      assert forall j :: i < j < |history| ==> !takes(history[j]) by {
        assert forall j :: i < j < |history| ==> longer[j] == history[j];
      }
      assert !takes(longer[|history|]);
    }
  }
}
