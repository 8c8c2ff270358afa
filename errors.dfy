/**
 * The ways an operation of the registry stops early. The first two are the
 * environment checks that end the process with exit status 1; the others are
 * the errors the operations throw.
 */
module Errors {
  datatype Failure =
    | NotRoot                        // "Please run the script as root."
    | RequiredFileMissing(path: string) // "Error: Required file (<path>) not found."
    | UsernameRequired               // "Username is required"
    | InvalidUsername                // "Username can only contain letters, numbers, and underscores"
    | UserExists(name: string)       // "User <u> already exists"
    | UserNotFound(name: string)     // "User <u> does not exist"
    | KeyGenerationFailed(message: string) // "Error generating keys: <message>"
    | ServerIpIncomplete             // a TypeError: serverip.cfg has fewer than three lines
    | FileMissing(path: string)      // ENOENT from readFileSync
    | RestartFailed(command: string) // `awg-quick down|up <interface>` exited non-zero
}
