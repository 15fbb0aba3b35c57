/** Error codes shared by every libcopp and libcotask component (copp_error_code). */
module CoppErrors {
  const COPP_EC_SUCCESS: int := 0

  const COPP_EC_UNKNOWN: int := -101
  const COPP_EC_EXTERNAL_INSERT_FAILED: int := -102
  const COPP_EC_EXTERNAL_ERASE_FAILED: int := -103
  const COPP_EC_IN_RESET: int := -104

  const COPP_EC_ALLOC_STACK_FAILED: int := -201

  const COPP_EC_NOT_INITED: int := -1001
  const COPP_EC_ALREADY_INITED: int := -1002
  const COPP_EC_ACCESS_VIOLATION: int := -1003
  const COPP_EC_NOT_READY: int := -1004
  const COPP_EC_NOT_RUNNING: int := -1005
  const COPP_EC_IS_RUNNING: int := -1006
  const COPP_EC_ALREADY_FINISHED: int := -1007
  const COPP_EC_NOT_FOUND: int := -1008
  const COPP_EC_ALREADY_EXIST: int := -1009
  const COPP_EC_ARGS_ERROR: int := -1010
  const COPP_EC_CAST_FAILED: int := -1011

  const COPP_EC_FCONTEXT_MAKE_FAILED: int := -2001

  // Codes the core returns that `copp_error_code` in utils/errno.h does not declare; the
  // model gives them distinct values of its own.
  const COPP_EC_COROUTINE_NOT_FOUND: int := -1101
  const COPP_EC_TASK_CAN_NOT_WAIT_SELF: int := -3001
  const COPP_EC_TASK_IS_EXITING: int := -3002
  const COPP_EC_TASK_ADD_NEXT_FAILED: int := -3003
  const COPP_EC_TASK_NOT_IN_ACTION: int := -3004
  const COPP_EC_TASK_ALREADY_IN_ANOTHER_MANAGER: int := -3005
}
