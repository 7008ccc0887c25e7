/** The rules of the game-over summary: the medal earned by a final score and
    whether that score is a new record. */
module GameOver {

  /** The five medal tiers, lowest first. */
  datatype Medal = Participant | Bronze | Silver | Gold | Platinum

  /** Position of a tier in the order Participant < Bronze < ... < Platinum. */
  function Rank(m: Medal): (r: nat)
    ensures r <= 4
  {
    match m
    case Participant => 0
    case Bronze => 1
    case Silver => 2
    case Gold => 3
    case Platinum => 4
  }

  /** `getMedal`: each tier covers a half-open band of scores whose lower
      bound is inclusive. */
  function GetMedal(score: nat): (m: Medal)
    ensures m == Platinum <==> score >= 50
    ensures m == Gold <==> 30 <= score < 50
    ensures m == Silver <==> 20 <= score < 30
    ensures m == Bronze <==> 10 <= score < 20
    ensures m == Participant <==> score < 10
  {
    if score >= 50 then Platinum
    else if score >= 30 then Gold
    else if score >= 20 then Silver
    else if score >= 10 then Bronze
    else Participant
  }

  /** A higher score never earns a lower medal. */
  lemma MedalMonotone(a: nat, b: nat)
    requires a <= b
    ensures Rank(GetMedal(a)) <= Rank(GetMedal(b))
  {
  }

  /** `isNewRecord`: the score beats the high score it is shown with. */
  function IsNewRecord(score: nat, highScore: nat): (b: bool)
    ensures b <==> score >= highScore + 1
    ensures b ==> score > 0
  {
    score > highScore
  }

  /** A record must beat the high score: equalling it is not a record, one
      more point is. */
  lemma NewRecordIsStrict(highScore: nat)
    ensures !IsNewRecord(highScore, highScore)
    ensures IsNewRecord(highScore + 1, highScore)
    ensures forall score: nat :: IsNewRecord(score, highScore) ==> score >= highScore + 1
  {
  }
}
