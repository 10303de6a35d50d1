/** The marks that `created_by` and `initiated_by` carry on local acts, in the same column
    as the names of operators. */
module Marks {
  const BOOTSTRAP := "bootstrap-admin"
  const RECOVERY := "recover-admin"

  predicate Direct(createdBy: string)
  {
    createdBy == BOOTSTRAP || createdBy == RECOVERY
  }
}
