/** The life stages of an environment (sched/inc/env.h). */
module EnvStatus {
  datatype Status = Free | Dying | Runnable | Running | NotRunnable
}
