# Verification of the transfer, hook, flame-graph and relay logic
includes = ["**/*.dfy"]
