/** The phases of a PromotionRun. */
module RunPhase {
  datatype Phase = Unset | Pending | Progressing | Complete | Failed | Superseded

  predicate IsTerminal(p: Phase) {
    p == Complete || p == Failed || p == Superseded
  }
}
